# One-sided segment guarding: a Dafny model

This project models the planning core of the *one-sided segments* data-centre
guarding program. A data centre is a rectangle holding racks. Each rack is a
segment that can be watched from one side only (above, below, left, right), or,
under other guarding models, from either or both sides. The program does four
things:

- It places racks in an "H-style" layout of fixed positions. Two of its random
  placements (grow-together and grow-one-by-one) then grow the racks one unit
  at a time; the model covers `growRacks`, the pass used by the grow-together
  variant. A unit of growth is taken only when the moved endpoint's new
  position is clear of the boundary and of the other racks; the rest of the
  grown segment is not checked.
- It cuts the room into a grid along every rack endpoint coordinate, and puts a
  candidate guard (camera) at the centre of every cell.
- It decides which candidates can see which rack. A guard sees a rack when it is
  on the rack's guarded side and no other rack meets the triangle spanned by the
  guard and the rack.
- It takes a minimum covering set of guards from an integer program and marks
  the chosen guards as selected.

The model has three layers:

- `geometry2d.dfy` is the plane geometry of `geometry2D.py`: points, segments,
  rectangles and triangles, as values.
- `racks.dfy`, `clearance.dfy`, `visibility.dfy`, `growth.dfy` and `layout.dfy`
  are the rack-level operations of `dataCenter.py`, as functions over values.
- `crosslines.dfy` and `grid.dfy` build the grid. `datacenter.dfy` is the data
  centre. `DataCenterGrid` and `DataCenter` are classes, because the source
  updates their fields in place. Their methods are proved against the
  specification functions of the other modules.

Python floats become `real`. A Euclidean distance `sqrt(d)` is never formed:
every comparison `sqrt(d) < t` is stated exactly, as `t > 0 && d < t*t`, on the
squared distance. The orientation codes `COLINEAR`, `CLOCKWISE` and
`COUNTERCLOCKWISE` keep their integer values (-1, -2, -3). `intersectsWithSegment`
(geometry2D.py:307-310) compares these codes with `0`, which `orientation`
never returns, so the "collinear and touching" branches can never fire. The
model keeps that behaviour, and `CollinearAxisSegmentsNeverIntersect` shows its
effect: two overlapping collinear segments are reported as not intersecting.
The `o1 == 0 and self.pointOn(p2)` branches show that collinear contact was
meant to count as an intersection; the model keeps what the code does. The lower-case `false` and `true` returned at
dataCenter.py:528-536 are the boolean constants that the star imports bring
in, and the model reads them as booleans.

## Model

| member | source | states |
|---|---|---|
| Geometry2D.Add | geometry2D.py:34-36 | subtracting the added point again gives the original point back |
| Geometry2D.Sub | geometry2D.py:38-40 | the difference of two points is the zero vector exactly when they coincide |
| Geometry2D.SubLengthIsDistance | geometry2D.py:38-40 | the squared length of the difference vector is the squared distance between the points |
| Geometry2D.Scale | geometry2D.py:42-44 | scaling by 1 keeps the point and scaling by 0 gives the origin; these are the two facts `At` uses to land on the start at t = 0 and on the end at t = 1 |
| Geometry2D.SqDist | geometry2D.py:267-270 | the squared distance is non-negative and is zero exactly when the two points coincide |
| Geometry2D.SegmentFromPoints | geometry2D.py:200-207 | a segment built from two points has them as its endpoints, in the order given |
| Geometry2D.Endpoints | geometry2D.py:218-219 | `endpoints` lists two points that both pass `pointOn`, and they coincide exactly when the segment has length 0 |
| Geometry2D.Midpoint | geometry2D.py:237-240 | the midpoint is the point at parameter 1/2, passes `pointOn`, and is equally far from both endpoints |
| Geometry2D.At | geometry2D.py:263-265 | the point at parameter t is the start plus t times the vector from start to end; it is the start at 0 and the end at 1 |
| Geometry2D.Lerp | geometry2D.py:263-265 | the interpolated coordinate is the start at 0 and the end at 1, and lies between them for a parameter in [0,1] |
| Geometry2D.LenSq | geometry2D.py:249 | the squared length is non-negative and is zero exactly when the segment is a single point |
| Geometry2D.SqDistanceFromPoint | geometry2D.py:242-270 | the point-to-segment distance is non-negative |
| Geometry2D.PointOnIsBoundingBox | geometry2D.py:272-280 | `pointOn`, which tests each axis in both endpoint orders, accepts a point exactly when it lies in the rectangle spanned by the segment's endpoints |
| Geometry2D.PointOnReverse | geometry2D.py:272-280 | `pointOn` does not depend on which endpoint comes first |
| Geometry2D.AtIsOn | geometry2D.py:263-265 | every interpolated point with a parameter in [0,1] passes `pointOn` |
| Geometry2D.ClosestPointOn | geometry2D.py:257-265 | the clamped projection used by `distanceFromPoint` always passes `pointOn` |
| Geometry2D.SqDistanceFromPointEndpoints | geometry2D.py:242-270 | both endpoints are at distance 0; for a zero-length segment `param` stays -1 and the distance is the distance to the first endpoint |
| Geometry2D.DotOfEnd | geometry2D.py:243-249 | at the far endpoint the dot product equals the squared length, so `param` is 1 there |
| Geometry2D.AxisSegmentDistanceZero | geometry2D.py:242-270 | a point that passes `pointOn` on a horizontal or vertical segment, on its line, is at distance 0 |
| Geometry2D.Orientation | geometry2D.py:282-289 | the result is one of the three codes, and it is `COLINEAR` exactly when the cross product is zero |
| Geometry2D.OrientationOfOwnEndpoints | geometry2D.py:282-289 | both endpoints of a segment are collinear with it |
| Geometry2D.OrientationValueReverse | geometry2D.py:283 | reversing the segment negates the cross product |
| Geometry2D.OrientationReverse | geometry2D.py:282-289 | reversing the segment swaps clockwise and counter-clockwise and keeps collinear |
| Geometry2D.Intersects | geometry2D.py:292-312 | because the `== 0` branches are dead, two segments intersect exactly when each one's endpoints get different orientations from the other |
| Geometry2D.IntersectsSymmetric | geometry2D.py:292-312 | intersection does not depend on argument order |
| Geometry2D.CollinearAxisSegmentsNeverIntersect | geometry2D.py:304-312 | two segments on the same horizontal or vertical line are never reported as intersecting, even where they overlap |
| Geometry2D.CornerTouchReported | geometry2D.py:304-305 | two axis-parallel segments that meet at a corner are reported as intersecting |
| Geometry2D.RectFromPoints | geometry2D.py:353-360 | the rectangle has its sides in order, contains both points, and takes each side from one of them |
| Geometry2D.RectFromPointsIsSmallest | geometry2D.py:353-360 | every rectangle containing both points contains the rectangle built from them |
| Geometry2D.Contains | geometry2D.py:367-371 | only a normalized rectangle contains any point |
| Geometry2D.Center | geometry2D.py:422-423 | the centre of a normalized rectangle lies in it, and strictly inside it when it has positive width and height |
| Geometry2D.ContainsCornersAndCenter | geometry2D.py:367-371 | a normalized rectangle contains its four corners and its `center` |
| Geometry2D.Overlaps | geometry2D.py:373-376 | rectangles of positive width and height overlap exactly when some point lies strictly inside both |
| Geometry2D.OverlapsSymmetric | geometry2D.py:373-376 | `overlaps` is symmetric |
| Geometry2D.SharedEdgeIsNoOverlap | geometry2D.py:373-376 | rectangles that only share an edge do not overlap |
| Geometry2D.ExpandedBy | geometry2D.py:386-394 | the expanded rectangle is normalized |
| Geometry2D.ExpandedByGrows | geometry2D.py:386-394 | expanding a normalized rectangle by n ≥ 0 moves each side out by n and keeps every contained point |
| Geometry2D.Edges | geometry2D.py:405-415 | `segments` gives four edges |
| Geometry2D.EdgesBoundRect | geometry2D.py:405-415 | each edge is horizontal or vertical, and every point on an edge lies in the rectangle |
| Geometry2D.RectSqDistanceFromPoint | geometry2D.py:417-420 | the distance to a rectangle is at most the distance to each edge and equals the distance to one of them |
| Geometry2D.RectDistanceZeroOnBoundary | geometry2D.py:417-420 | a point on the rectangle's border is at distance 0 |
| Geometry2D.Sides | geometry2D.py:453-455 | a triangle has three sides |
| Geometry2D.OrientationValuesSum | geometry2D.py:452-460 | whatever the point, its three side values add up to the first side's value at the third vertex (twice the signed area) |
| Geometry2D.PointInside | geometry2D.py:452-460 | a point `pointInside` a proper triangle is strictly on the same side of all three sides, never collinear with one |
| Geometry2D.EdgePointsNotInside | geometry2D.py:452-460 | no point on a side's line, and no vertex, is `pointInside` a proper triangle |
| Geometry2D.TriangleIntersectsSegment | geometry2D.py:462-472 | a segment meets a triangle exactly when it crosses one of the three sides, whichever is tried first, or has an endpoint inside |
| Geometry2D.InsideEndpointIntersects | geometry2D.py:462-472 | a segment with an endpoint inside the triangle meets the triangle |
| Racks.GuardingDirToString | dataCenter.py:62-74 | every label starts with "FROM " |
| Racks.GuardingDirToStringInjective | dataCenter.py:62-74 | different directions get different labels |
| Racks.SetGrowthPossibilities | dataCenter.py:85-95 | left/right-facing racks may grow up and down only; up/down-facing racks may grow left and right only; other racks are untouched; segment and direction are kept |
| Racks.GrowableRack | dataCenter.py:76-79 | a growable rack keeps its segment and direction |
| Racks.GrowableRackFlags | dataCenter.py:85-95 | a growable rack facing one of the four sides gets flags with exactly two set: up and down together, or left and right together, never both pairs |
| Racks.SetGrowthPossibilitiesIdempotent | dataCenter.py:85-95 | setting the growth flags twice is the same as once |
| Racks.GenerateRandomDirection | dataCenter.py:539-550 | for vertical racks the draw r ≤ 0.5 gives RIGHT and otherwise LEFT; for horizontal racks UP and DOWN |
| Racks.RandomDirectionFitsOrientation | dataCenter.py:539-559 | vertical racks face left or right, horizontal racks up or down, and every draw is one of the four sides |
| Racks.RandomDirectionQuarters | dataCenter.py:551-559 | for other orientations, each side is chosen exactly on its quarter of [0,1] |
| Clearance.EffectiveTolerance | dataCenter.py:522-524 | a zero tolerance means epsilon; any other tolerance is used as given |
| Clearance.IsPointSufficientlyFar | dataCenter.py:522-536 | a point is far enough exactly when it is at least the tolerance from the boundary and from every rack other than the excluded one |
| Clearance.FarFromRacks | dataCenter.py:530-534 | the rack scan succeeds exactly when no remaining non-excluded rack is closer than the tolerance |
| Clearance.TolerancesNest | dataCenter.py:522-536 | a point far enough under a tolerance is far enough under any smaller positive one |
| Clearance.ExcludedRackIgnored | dataCenter.py:530-534 | excluding a rack never turns an accepted point into a rejected one |
| Clearance.EndpointsAndBoundaryRejected | dataCenter.py:522-536 | with a positive tolerance, an endpoint of another rack and any point on the boundary are rejected |
| Visibility.OnGuardedSide | dataCenter.py:575-587 | under Poser's Choice the guard must be strictly on the rack's facing side of its line; other models accept every position |
| Visibility.NoBlocker | dataCenter.py:591-595 | the scan finds no blocker exactly when no other remaining rack meets the guarding triangle |
| Visibility.CanSee | dataCenter.py:564-597 | a guard sees a rack exactly when it is on the guarded side under the model, and no other rack meets the triangle of the guard and the rack's endpoints |
| Visibility.WrongSideRejected | dataCenter.py:575-587 | under Poser's Choice a guard on or behind the rack's line, against its facing direction, never sees it |
| Visibility.PosersChoiceStrictest | dataCenter.py:575-597 | everything seen under Poser's Choice is seen under Solver's Choice, and Solver's Choice and Both Sides see the same |
| Visibility.LoneRackSeenFromGuardedSide | dataCenter.py:564-597 | with a single rack, visibility reduces to the side test |
| Visibility.MoreRacksSeeLess | dataCenter.py:589-597 | adding a rack can only hide racks, and a rack still seen is not blocked by the new one |
| Visibility.InsideEndpointBlocks | dataCenter.py:589-597 | another rack with an endpoint inside the guarding triangle hides the rack |
| Growth.Extended | dataCenter.py:429-453 | the grown segment ends at the growth point probed for that side |
| Growth.GrowPass | dataCenter.py:427-455 | a pass keeps the number of racks and leaves every rack growable |
| Growth.GrowPrefix | dataCenter.py:427-455 | growing the first k racks keeps the count, keeps them growable and leaves the other racks unchanged |
| Growth.GrowStepShape | dataCenter.py:430-435 | one side's step changes only its own rack, keeps its direction and flags, and extends it by one unit exactly when that side is allowed and the probed point is clear |
| Growth.FourSteps | dataCenter.py:429-453 | the four side steps together move each endpoint outward by at most one unit along the allowed axes, and the rack changed exactly when some step grew |
| Growth.GrowRackShape | dataCenter.py:429-453 | growing one rack changes only that rack, one unit outward at most on each allowed side, and reports growth exactly when it changed |
| Growth.OneMoreRack | dataCenter.py:429-453 | the outward and growth-reporting facts carry over from k-1 racks to k |
| Growth.GrowPrefixOutward | dataCenter.py:427-455 | after growing the first k racks, each moved outward by at most one unit per side, and growth is reported exactly when some rack changed |
| Growth.GrowPassOutward | dataCenter.py:427-455 | a full `growRacks` pass moves every rack outward by at most one unit per side and returns True exactly when some rack changed |
| Growth.FixedRacksDoNotGrow | dataCenter.py:427-455 | racks with no growth flags set are left as they are, and the pass returns False |
| Layout.HStyleOrientations | dataCenter.py:478-487 | the orientation loop gives exactly the H-style pattern and counts its horizontal racks |
| Layout.HStyleDirection | dataCenter.py:497-509 | a rack faces up exactly when it is horizontal or there are no horizontal racks |
| Layout.HStyleRack | dataCenter.py:510-517 | rack i starts at its x position and has no growth flags |
| Layout.HStyleLayout | dataCenter.py:475-519 | the placement builds `num` racks, the i-th being the H-style rack i |
| Layout.PlaceRack | dataCenter.py:496-517 | one placement iteration produces the i-th H-style rack and advances `last_x` and `lastVerticalDir` to their values for i+1 |
| Layout.PlacementStep | dataCenter.py:510-517 | each rack starts epsilon past the previous `last_x`, and the next `last_x` adds the separation for horizontal racks (or for every rack when none is horizontal) |
| Layout.DirectionStep | dataCenter.py:498-509 | a vertical rack's facing follows from its position and the last vertical facing, which it then becomes |
| Layout.OrientationPattern | dataCenter.py:478-487 | racks 0, 1 and num-1 are vertical, a horizontal rack follows two verticals, there are (num-1)/3 horizontal racks, and some exist exactly when num ≥ 4 |
| Layout.HStyleShapes | dataCenter.py:510-516 | racks have no growth flags; horizontal racks lie on y = 50, are one separation long and face up; vertical racks span from epsilon to 100 - epsilon |
| Layout.DirectionPattern | dataCenter.py:496-509 | without horizontal racks all face up; otherwise rack 0 faces left, racks 1 and num-1 face right, and consecutive inner vertical racks alternate |
| Layout.SeparationFillsSpan | dataCenter.py:489-492 | the separations, with an epsilon per rack, fill the width 100 - epsilon exactly |
| Layout.LastRackAtRightMargin | dataCenter.py:489-517 | the last rack stands at x = 100 - epsilon, and with horizontal racks the first stands at x = epsilon |
| Layout.Spacing | dataCenter.py:494-517 | with horizontal racks, consecutive racks are epsilon apart, plus a separation after a horizontal rack |
| CrossLines.Insert | dataCenter.py:158 | insertion keeps a list sorted and adds exactly the one element |
| CrossLines.SortSeq | dataCenter.py:158 | `sort` gives a sorted permutation of its input |
| CrossLines.SortedUnique | dataCenter.py:158 | two sorted lists with the same elements are equal, so the sorted list is unique |
| CrossLines.SetToSeq | dataCenter.py:155-156 | walking a set lists each of its elements exactly once |
| CrossLines.Lines | dataCenter.py:154-163 | the grid lines are sorted and are exactly the two boundary sides plus the cross points |
| CrossLines.SortedEnumerationIsLines | dataCenter.py:154-158 | the order in which the set is walked does not change the sorted line list |
| CrossLines.LinesSpan | dataCenter.py:154-163 | every boundary side and cross point is a line, and the first and last lines are the least and greatest |
| CrossLines.LinesBracket | dataCenter.py:154-163 | the outer lines lie at or beyond the boundary sides |
| Grid.GridCellsLength | dataCenter.py:166-170 | cutting gives (number of x gaps) × (number of y gaps) cells |
| Grid.GridCellsIndex | dataCenter.py:166-170 | the cell for x gap i and y gap j sits at position i·(y gaps) + j |
| Grid.SortedCellSides | dataCenter.py:168-170 | on sorted lines a cell's sides are exactly its two bounding lines in order, so it is normalized |
| Grid.CellInteriorsDisjoint | dataCenter.py:166-170 | on sorted lines no point is strictly inside two different cells |
| Grid.RackVertices | dataCenter.py:130-132 | the vertices are each rack's start then end, two per rack in rack order |
| Grid.VerticesAreCrossPoints | dataCenter.py:136-138 | every vertex's x and y are cross points |
| Grid.CrossPointsFromVertices | dataCenter.py:136-138 | every cross point is a coordinate of some vertex |
| Grid.Centers | dataCenter.py:147-148 | there is one centre per cell, and each lies in its cell when the cell is normalized |
| Grid.CandidatesFor | dataCenter.py:177-178 | there is one candidate per cell; it starts unselected and lies in its cell when the cell is normalized |
| Grid.CandidatesInsideTheirCells | dataCenter.py:174-179 | each candidate lies inside its normalized cell and starts unselected |
| Grid.CellsForShape | dataCenter.py:153-172 | `getCells` yields (|x cross|+1)(|y cross|+1) normalized cells, each bounded by consecutive sorted lines |
| Grid.CellsForCover | dataCenter.py:153-172 | every point of the bounding rectangle lies in some cell |
| Grid.GridCellsCover | dataCenter.py:166-170 | on sorted lines, every point between the outer lines lies in some cell |
| Grid.SortedGridCell | dataCenter.py:166-170 | on sorted lines, the cell at position i·(y gaps)+j is the normalized rectangle between lines i, i+1 and j, j+1 |
| Grid.RefinementKeepsCount | dataCenter.py:144-179 | adding cross points never lowers the number of cells, and so never lowers the number of candidate guards |
| Grid.DataCenterGrid.constructor | dataCenter.py:128-142 | vertices are the rack endpoints; cross points, when created (at least one rack), are exactly their coordinates; cells and candidates start empty |
| Grid.DataCenterGrid.RefineGrid | dataCenter.py:144-151 | every cell's center is added to the vertices and its coordinates to the cross points, so the next cut splits each cell through its center and yields at least as many cells |
| Grid.DataCenterGrid.AddPoints | dataCenter.py:147-151 | the points are appended to the vertices and their coordinates added to the cross point sets |
| Grid.DataCenterGrid.Enumerate | dataCenter.py:155-156 | walking a set lists each element once |
| Grid.DataCenterGrid.SortedCrosses | dataCenter.py:154-158 | the built list is the sorted line list |
| Grid.DataCenterGrid.CutCells | dataCenter.py:165-170 | the double loop produces exactly the grid cells of the two line lists |
| Grid.DataCenterGrid.CellsOf | dataCenter.py:153-170 | the cells are those cut from the sorted lines |
| Grid.DataCenterGrid.GetCells | dataCenter.py:153-172 | `cells` is replaced by the cells cut from the sorted lines, and returned; the grid stays valid |
| Grid.DataCenterGrid.PlaceCandidates | dataCenter.py:176-178 | one unselected guard per cell, at its center |
| Grid.DataCenterGrid.GenerateCandidateGuardSet | dataCenter.py:174-179 | the cells are recomputed and the candidates replaced by one unselected guard per cell center, (|x cross|+1)(|y cross|+1) of them; the grid stays valid |
| DataCenters.Selected | dataCenter.py:269-274 | the filtered list is no longer than the input and holds only selected guards from it |
| DataCenters.CountOnes | dataCenter.py:693-702 | the count of variables equal to 1 is at most their number, and zero exactly when none is 1 |
| DataCenters.SelectedDistributes | dataCenter.py:269-274 | filtering a concatenation filters each part |
| DataCenters.SelectedMembers | dataCenter.py:269-274 | the filtered guards are exactly the selected candidates |
| DataCenters.MarkSelected | dataCenter.py:693-701 | the guards keep their locations, and a guard is selected after the pass exactly when it was before or its variable is 1 |
| DataCenters.SolutionSelectsItsOnes | dataCenter.py:693-702 | starting from no selected guards, the selected guards after the pass are as many as the variables equal to 1 |
| DataCenters.DataCenter.constructor | dataCenter.py:221-228 | a new data centre has no racks, Poser's Choice, complete coverage, delta 0 and an empty grid over its boundary |
| DataCenters.DataCenter.GetSelectedGuards | dataCenter.py:269-274 | the result is the selected candidates, in order |
| DataCenters.DataCenter.SetGuardingModel | dataCenter.py:276-279 | the model, coverage type and delta are replaced |
| DataCenters.DataCenter.CreateInitialGrid | dataCenter.py:561-562 | the new grid is built from the boundary and the current racks |
| DataCenters.DataCenter.PlaceHStyleRackConfiguration | dataCenter.py:475-519 | the racks become the `num` H-style racks and the call returns True |
| DataCenters.DataCenter.GrowRacks | dataCenter.py:427-455 | the racks and the returned flag are those of one growth pass over the old racks |
| DataCenters.DataCenter.GrowOneRack | dataCenter.py:429-453 | the four side steps on one rack give its grown rack, and the flag records whether anything grew so far |
| DataCenters.DataCenter.GrowSide | dataCenter.py:430-435 | one side's probe and extension give the step's result |
| DataCenters.DataCenter.CoverageRow | dataCenter.py:670-675 | the row has one 0/1 entry per candidate, 1 exactly when that candidate sees the rack |
| DataCenters.DataCenter.GenerateGuardingMatrix | dataCenter.py:666-676 | the matrix has a row per rack and a column per candidate, with 1 exactly where the candidate sees the rack and 0 elsewhere |
| DataCenters.DataCenter.MarkOnes | dataCenter.py:693-701 | the loop marks the guards whose variable is 1 and counts them |
| DataCenters.DataCenter.ApplySolverSolution | dataCenter.py:689-702 | a non-optimal status changes nothing and returns nothing; an optimal one marks the guards whose variable is 1 and returns their number |

## Left out

- Default arguments become explicit parameters: the data centre's `eps=2` (dataCenter.py:221) and `GrowableRack`'s `direction=Rack.LEFT` (dataCenter.py:77) must be passed by the caller.

- Drawing (`draw`, `scaleToTurtleCanvas`) and JSON output (`toJSON`): these are display only.
- Logging calls: they only write diagnostics.
- The random rack placements (`placeRandomAllVerticalRacks`, `placeRandomHStyleOrthogonalRacks`, `placeRandomOrthogonalRacks` and its two growth variants): they draw from `random.uniform` and retry without bound. `generateRandomDirection` is modelled, with the draw `random.uniform(0, 1)` as a parameter.
- `Rack.setDir` and `GrowableRack.setDir`: the modelled operations never call them, and the subclass version passes `self` twice and fails.
- `howMuchCanFixedNumberOffGauardsSee`: it is a stub that always returns 0.
- guardingDriver.py: it is the driver (directory handling, canvas, file output, the outer refinement loop) and is not part of this model.
- The MIP model and its solve in `findMinimalGuardSet`: the solver is external. Its status and variable values are parameters of `ApplySolverSolution`. Only the post-processing is modelled.
- `guardCanSeeRackExceptForDelta` (all-but-delta coverage): that oracle is not part of this model. `GenerateGuardingMatrix` requires complete coverage.
- `Line` and `intersectionWithLine`, `Segment.line`, the `Point.UNDEFINED` sentinel, and the point helpers `__div__`, `length`, `distance_to`, `clone`, `integerize`, `floatize`, `move_to`, `slide`, `slide_xy`, `rotate`, `rotate_about`, `line_through_point`: the modelled operations never use them.
- Floating point: reals stand for Python floats, so rounding is not modelled. `sqrt` is never taken; distances are compared through their squares, which is exact.
- Geometry2D.SqDistanceFromPoint: proves that the clamped projection passes `pointOn` and that the distance is zero at endpoints and on axis segments. It does not prove that the projection is the closest point of the segment.
- Layout.DirectionPattern: alternation of vertical facings is proved only when the next vertical rack is not the last one, because the code always makes the last rack face RIGHT.
- Racks are values in a sequence. Python's object identity test `rack != thisRack` becomes a comparison of positions, and no rack is shared between lists.
- `vertices` is a Python set of `Point` objects compared by identity. The model keeps it as a sequence of points, in the order the racks list them. Sets of reals are walked in some order that the model does not fix; only the sorted result matters.
- Growth.GrowPass requires every rack to carry growth flags. A plain `Rack` has no `can_grow_*` attributes, and `growRacks` would fail on it.
- Layout.HStyleLayout requires `num > 0`: with `num == 0` the separation divides by zero.
- A grid built from an empty rack list never creates `x_crosspts` and `y_crosspts`. The model records this with `crossPtsAssigned`, and `getCells` requires it.
- `guardingMatrix` is a field of the grid from construction on. It starts empty, while the Python object only gains the attribute in `generateGuardingMatrix`.

