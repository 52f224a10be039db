/**
 * The data centre: its boundary, epsilon, racks, grid and guarding model,
 * and the operations that place and grow racks, build the coverage matrix
 * and read back the selected guards.
 */
module DataCenters {
  import opened Geometry2D
  import opened Racks
  import opened Clearance
  import opened Visibility
  import opened Growth
  import opened Grid
  import opened Layout

  /** COMPLETE_COVERAGE and ALL_BUT_DELTA_COVERAGE. */
  datatype Coverage = CompleteCoverage | AllButDeltaCoverage

  // ------------------------------------------------------------ Selected guards

  /** The selected guards, in their original order: each is a selected member of the list. */
  function Selected(gs: seq<Guard>): (sel: seq<Guard>)
    ensures |sel| <= |gs|
    ensures forall g :: g in sel ==> g.selected && g in gs
  {
    if gs == [] then []
    else Selected(gs[..|gs| - 1]) + (if gs[|gs| - 1].selected then [gs[|gs| - 1]] else [])
  }

  /** Filtering keeps the order: the selection of a concatenation is the concatenation of the selections. */
  lemma {:induction false} SelectedDistributes(a: seq<Guard>, b: seq<Guard>)
    ensures Selected(a + b) == Selected(a) + Selected(b)
    decreases |b|
  {
    if b != [] {
      var b' := b[..|b| - 1];
      assert (a + b)[..|a + b| - 1] == a + b';
      SelectedDistributes(a, b');
    } else {
      assert a + b == a;
    }
  }

  /** The selection holds exactly the selected guards of the list. */
  lemma {:induction false} SelectedMembers(gs: seq<Guard>)
    ensures forall g :: g in Selected(gs) ==> g.selected && g in gs
    ensures forall k :: 0 <= k < |gs| && gs[k].selected ==> gs[k] in Selected(gs)
  {
    if gs != [] {
      var init := gs[..|gs| - 1];
      SelectedMembers(init);
      assert forall k :: 0 <= k < |init| ==> init[k] == gs[k];
    }
  }

  // ------------------------------------------------------------ Solver post-processing

  /** The number of entries equal to 1 in the solver's variable values. */
  function CountOnes(values: seq<real>): (c: nat)
    ensures c <= |values|
    ensures c == 0 <==> forall k :: 0 <= k < |values| ==> values[k] != 1.0
  {
    if values == [] then 0
    else CountOnes(values[..|values| - 1]) + (if values[|values| - 1] == 1.0 then 1 else 0)
  }

  /** Each candidate whose variable is 1 becomes selected; the rest are untouched. */
  function MarkSelected(gs: seq<Guard>, values: seq<real>): (marked: seq<Guard>)
    requires |values| == |gs|
    ensures |marked| == |gs|
    ensures forall k :: 0 <= k < |gs| ==> marked[k].loc == gs[k].loc
    ensures forall k :: 0 <= k < |gs| ==> marked[k].selected == (gs[k].selected || values[k] == 1.0)
  {
    seq(|gs|, k requires 0 <= k < |gs| => if values[k] == 1.0 then gs[k].(selected := true) else gs[k])
  }

  /**
   * Starting from a fresh candidate set, the guards read back as selected
   * are as many as the variables equal to 1.
   */
  lemma {:induction false} SolutionSelectsItsOnes(gs: seq<Guard>, values: seq<real>)
    requires |values| == |gs|
    requires forall k :: 0 <= k < |gs| ==> !gs[k].selected
    ensures |Selected(MarkSelected(gs, values))| == CountOnes(values)
  {
    if gs != [] {
      var n := |gs| - 1;
      var marked := MarkSelected(gs, values);
      assert marked[..n] == MarkSelected(gs[..n], values[..n]);
      SolutionSelectsItsOnes(gs[..n], values[..n]);
    }
  }

  // ------------------------------------------------------------ The data centre

  class DataCenter {
    var boundaryRect: Rect
    var epsilon: real
    var racks: seq<Rack>
    var grid: DataCenterGrid
    var guardingModel: GuardingModel
    var coverage: Coverage
    var delta: real

    /** `DataCenter(rect, eps)`: no racks, an empty grid, poser's choice with complete coverage. */
    constructor (rect: Rect, eps: real)
      ensures boundaryRect == rect && epsilon == eps && racks == []
      ensures guardingModel == PosersChoice && coverage == CompleteCoverage && delta == 0.0
      ensures fresh(grid) && grid.boundingRect == rect && grid.rackSet == [] && !grid.crossPtsAssigned
      ensures grid.vertices == [] && grid.cells == [] && grid.candidateGuardSet == []
    {
      boundaryRect := rect;
      epsilon := eps;
      racks := [];
      grid := new DataCenterGrid(rect, []);
      guardingModel := PosersChoice;
      coverage := CompleteCoverage;
      delta := 0.0;
    }

    /** `getSelectedGuards`: the selected candidates, in candidate order. */
    method GetSelectedGuards() returns (selectedGuards: seq<Guard>)
      ensures selectedGuards == Selected(grid.candidateGuardSet)
    {
      var candidates := grid.candidateGuardSet;
      selectedGuards := [];
      for k := 0 to |candidates|
        invariant selectedGuards == Selected(candidates[..k])
      {
        assert candidates[..k + 1][..k] == candidates[..k];
        if candidates[k].selected {
          selectedGuards := selectedGuards + [candidates[k]];
        }
      }
      assert candidates[..|candidates|] == candidates;
    }

    /** `setGuardingModel`. */
    method SetGuardingModel(model: GuardingModel, coverageType: Coverage, d: real)
      modifies this`guardingModel, this`coverage, this`delta
      ensures guardingModel == model && coverage == coverageType && delta == d
    {
      guardingModel := model;
      coverage := coverageType;
      delta := d;
    }

    /** `createInitialGrid`: a fresh grid over the boundary and the current racks. */
    method CreateInitialGrid()
      modifies this`grid
      ensures fresh(grid) && grid.boundingRect == boundaryRect && grid.rackSet == racks
      ensures grid.vertices == RackVertices(racks)
      ensures grid.crossPtsAssigned <==> |racks| > 0
      ensures grid.crossPtsAssigned ==>
                grid.xCrossPts == XCoords(grid.vertices) && grid.yCrossPts == YCoords(grid.vertices)
      ensures grid.cells == [] && grid.candidateGuardSet == [] && grid.Valid()
    {
      grid := new DataCenterGrid(boundaryRect, racks);
    }

    /** `placeHStyleRackConfiguration(num)`: replaces the racks by the H-style configuration. */
    method PlaceHStyleRackConfiguration(num: nat) returns (ok: bool)
      requires num > 0
      modifies this`racks
      ensures ok && |racks| == num
      ensures forall i :: 0 <= i < num ==> racks[i] == HStyleRack(num, epsilon, i)
    {
      racks := HStyleLayout(num, epsilon);
      ok := true;
    }

    /**
     * `growRacks`: one pass over the racks, each growable side of each rack
     * in turn extended by one unit when the moved endpoint has clearance.
     */
    method GrowRacks() returns (someRacksGrew: bool)
      requires AllGrowable(racks)
      modifies this`racks
      ensures Grown(racks, someRacksGrew) == GrowPass(boundaryRect, epsilon, old(racks))
    {
      var b, e, start := boundaryRect, epsilon, racks;
      var rs := racks;
      someRacksGrew := false;
      for i := 0 to |start|
        invariant Grown(rs, someRacksGrew) == GrowPrefix(b, e, start, i)
      {
        rs, someRacksGrew := GrowOneRack(b, e, rs, i, someRacksGrew);
      }
      racks := rs;
    }

    /** The body of `growRacks` for rack i: right, left, up, then down. */
    static method GrowOneRack(b: Rect, e: real, rs: seq<Rack>, i: nat, grewBefore: bool)
      returns (rs': seq<Rack>, grew: bool)
      requires i < |rs| && rs[i].flags.Some?
      ensures var g := GrowRack(b, e, rs, i); rs' == g.racks && grew == (grewBefore || g.grew)
    {
      var g1, g2, g3, g4;
      ghost var h1 := GrowStep(b, e, rs, i, ToRight);
      GrowStepShape(b, e, rs, i, ToRight);
      rs', g1 := GrowSide(b, e, rs, i, ToRight);
      ghost var h2 := GrowStep(b, e, h1.racks, i, ToLeft);
      GrowStepShape(b, e, h1.racks, i, ToLeft);
      rs', g2 := GrowSide(b, e, rs', i, ToLeft);
      ghost var h3 := GrowStep(b, e, h2.racks, i, ToUp);
      GrowStepShape(b, e, h2.racks, i, ToUp);
      rs', g3 := GrowSide(b, e, rs', i, ToUp);
      GrowStepShape(b, e, h3.racks, i, ToDown);
      rs', g4 := GrowSide(b, e, rs', i, ToDown);
      grew := grewBefore || g1 || g2 || g3 || g4;
    }

    /**
     * One `if rack.can_grow_...` block of `growRacks`: with the permission,
     * test the moved endpoint against the other racks and the boundary (a
     * tolerance of 0, so epsilon), and extend the segment if it has room.
     */
    static method GrowSide(b: Rect, e: real, rs: seq<Rack>, i: nat, side: Side)
      returns (rs': seq<Rack>, grew: bool)
      requires i < |rs| && rs[i].flags.Some?
      ensures Grown(rs', grew) == GrowStep(b, e, rs, i, side)
    {
      rs', grew := rs, false;
      if Allowed(rs[i].flags.value, side) {
        var growPt := GrowPoint(rs[i].seg, side);
        var roomToGrow := IsPointSufficientlyFar(b, e, rs, growPt, 0.0, Some(i));
        if roomToGrow {
          rs' := rs[i := rs[i].(seg := Extended(rs[i].seg, side))];
          grew := true;
        }
      }
    }

    /** One row of `generateGuardingMatrix`: entry j is 1 when candidate j sees rack i. */
    static method CoverageRow(model: GuardingModel, rs: seq<Rack>, candidates: seq<Guard>, i: nat)
      returns (row: seq<int>)
      requires i < |rs|
      ensures |row| == |candidates|
      ensures forall j :: 0 <= j < |candidates| ==>
                (row[j] == 1 <==> CanSee(model, rs, candidates[j].loc, i)) && (row[j] == 0 || row[j] == 1)
    {
      row := [];
      for j := 0 to |candidates|
        invariant |row| == j
        invariant forall k :: 0 <= k < j ==>
                    (row[k] == 1 <==> CanSee(model, rs, candidates[k].loc, i)) && (row[k] == 0 || row[k] == 1)
      {
        if CanSee(model, rs, candidates[j].loc, i) {
          row := row + [1];
        } else {
          row := row + [0];
        }
      }
    }

    /**
     * `generateGuardingMatrix` under complete coverage: one row per rack, one
     * 0/1 entry per candidate, entry [i][j] = 1 exactly when candidate j sees rack i.
     */
    method GenerateGuardingMatrix()
      requires coverage == CompleteCoverage
      modifies grid`guardingMatrix
      ensures |grid.guardingMatrix| == |racks|
      ensures forall i :: 0 <= i < |racks| ==> |grid.guardingMatrix[i]| == |grid.candidateGuardSet|
      ensures forall i, j :: 0 <= i < |racks| && 0 <= j < |grid.candidateGuardSet| ==>
                (grid.guardingMatrix[i][j] == 1 <==>
                   CanSee(guardingModel, racks, grid.candidateGuardSet[j].loc, i)) &&
                (grid.guardingMatrix[i][j] == 0 || grid.guardingMatrix[i][j] == 1)
    {
      var candidates, model, rs := grid.candidateGuardSet, guardingModel, racks;
      var matrix: seq<seq<int>> := [];
      for i := 0 to |rs|
        invariant |matrix| == i
        invariant forall k :: 0 <= k < i ==> |matrix[k]| == |candidates|
        invariant forall k, j :: 0 <= k < i && 0 <= j < |candidates| ==>
                    (matrix[k][j] == 1 <==> CanSee(model, rs, candidates[j].loc, k)) &&
                    (matrix[k][j] == 0 || matrix[k][j] == 1)
      {
        var row := CoverageRow(model, rs, candidates, i);
        matrix := matrix + [row];
      }
      grid.guardingMatrix := matrix;
      assert candidates == grid.candidateGuardSet && model == guardingModel && rs == racks;
    }

    /** The loop over the solver's variables: mark every candidate whose value is 1, and count them. */
    static method MarkOnes(candidates: seq<Guard>, values: seq<real>) returns (marked: seq<Guard>, count: nat)
      requires |values| == |candidates|
      ensures marked == MarkSelected(candidates, values) && count == CountOnes(values)
    {
      marked, count := candidates, 0;
      for k := 0 to |values|
        invariant |marked| == |candidates|
        invariant forall j :: 0 <= j < k ==>
                    marked[j] == if values[j] == 1.0 then candidates[j].(selected := true) else candidates[j]
        invariant forall j :: k <= j < |candidates| ==> marked[j] == candidates[j]
        invariant count == CountOnes(values[..k])
      {
        assert values[..k + 1][..k] == values[..k];
        if values[k] == 1.0 {
          marked := marked[k := marked[k].(selected := true)];
          count := count + 1;
        }
      }
      assert values[..|values|] == values;
    }

    /**
     * What `findMinimalGuardSet` does with the solver's answer: when the
     * status is optimal, each candidate whose variable is 1 is marked
     * selected and their number returned; otherwise nothing changes and
     * nothing is returned.
     */
    method ApplySolverSolution(optimal: bool, values: seq<real>) returns (numGuards: Option<nat>)
      requires |values| == |grid.candidateGuardSet|
      modifies grid`candidateGuardSet
      ensures !optimal ==> numGuards == None && grid.candidateGuardSet == old(grid.candidateGuardSet)
      ensures optimal ==>
                numGuards == Some(CountOnes(values)) &&
                grid.candidateGuardSet == MarkSelected(old(grid.candidateGuardSet), values)
    {
      if !optimal {
        return None;
      }
      var gs, count := MarkOnes(grid.candidateGuardSet, values);
      grid.candidateGuardSet := gs;
      numGuards := Some(count);
    }
  }
}
