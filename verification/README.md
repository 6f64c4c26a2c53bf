# StickBlast grid core in Dafny

StickBlast is a puzzle game. The player drags sticks onto a lattice of dots, and each stick is a
short chain of unit segments. Every segment that lands occupies a connection between two
neighbouring dots. A cell whose four sides are occupied becomes complete. A row or column of
complete cells blasts: it scores points, raises the combo counter and clears the cells and their
sides. The game is won when a level goal is reached: a point total, or a number of collected
items. It is lost when no waiting stick fits anywhere.

This project models that core as immutable Dafny values and pure functions:

- `GridState` holds the grid: a `Grid` record with one map per array. The maps are the dots, the
  horizontal connections, the vertical connections and the cells, all keyed by `Pos`.
- The source's names are kept. A horizontal connection at (x, y) joins (x, y) to (x, y + 1). A
  vertical connection at (x, y) joins (x, y) to (x + 1, y). An `EdgeRef` names a connection slot
  and stands in for the `Connection` object.
- `GridInitializer`, `Dots`, `Connections` and `Cells` model the construction and the state
  changes of the individual pieces.
- `ConnectionManager` models the edge lookups (dot pair to connection, cell to sides, dot to
  incident connections) and the connection resets.
- `Sticks` models quarter-turn rotation of segments, and `Rounding` the round-half-to-even that
  places a stick's centre.
- `GridValidator` models the placement test and the exhaustive search behind the lose rule.
- `BlastManager` models line detection and the blast wave. `CellManager` models cell completion,
  the row and column counts, and the preview set.
- `PlacementManager` models committing a stick segment by segment and the read-only preview
  queries.
- `GridManager` is the facade that accepts a stick only while the game is playing.
- `GameManager` is the Playing/Won/Lost state machine.
- `PointWinCondition` and `CollectItemsWinCondition` are the two level goals; `Text` holds the
  integer formatting their progress text uses.
- `StickSpawner` models the tray of waiting sticks and the lose rule.
- `GridDebugger` replays the debug pattern as a concrete scenario.

Calls out of the core are returned as an `Event` list next to the new state. These are sounds,
points reported to the level, collected items, music and vibration.

The central invariant is `CellManager.Settled`, built from `CellManager.Pending`:

- every complete cell has four occupied sides;
- every full cell is complete;
- no row or column counts as complete;
- a dot is occupied exactly when one of its connections is.

A new grid is settled (`GridManager.InitializeGridSettled`), and placing a stick keeps a settled
grid settled. Each blast check runs at most one wave, because a wave can never leave a line behind
it (`BlastManager.NoLinesAfterWave`).

## Model

| member | source | states |
|---|---|---|
| GridState.CellCornersInBounds | Assets/StickBlast/Scripts/Grid/Core/GridState.cs:40-48 | all four corners of an in-bounds cell are in-bounds dots |
| GridState.ConnectionEndpoints | Assets/StickBlast/Scripts/Grid/Core/GridState.cs:25-31 | in a well-formed grid every connection's stored endpoints are existing dots one unit apart, matching its slot |
| GridState.WithConnectionWellFormed | Assets/StickBlast/Scripts/Grid/Core/GridState.cs:7-23 | replacing one connection by one with the same endpoints keeps the array shapes, width and height |
| GridInitializer.DotArray | Assets/StickBlast/Scripts/Level/Grid/Core/GridInitializer.cs:36-50 | exactly the positions 0≤x<W, 0≤y<H get a dot, each initialised at its own position |
| GridInitializer.HorizontalArray | Assets/StickBlast/Scripts/Level/Grid/Core/GridInitializer.cs:52-66 | exactly the slots x<W, y<H−1 get a fresh connection joining (x,y) and (x,y+1) |
| GridInitializer.VerticalArray | Assets/StickBlast/Scripts/Level/Grid/Core/GridInitializer.cs:68-82 | exactly the slots x<W−1, y<H get a fresh connection joining (x,y) and (x+1,y) |
| GridInitializer.CellArray | Assets/StickBlast/Scripts/Level/Grid/Core/GridInitializer.cs:84-97 | exactly the slots x<W−1, y<H−1 get a fresh cell |
| GridInitializer.InitializeGrid | Assets/StickBlast/Scripts/Level/Grid/Core/GridInitializer.cs:27-34 | the built grid is well formed with the four array shapes; every endpoint exists, and no dot, connection or cell starts occupied or complete |
| Dots.Initialize | Assets/StickBlast/Scripts/Grid/Dot.cs:28-32 | a new dot records its position and is unoccupied |
| Dots.SetOccupied | Assets/StickBlast/Scripts/Grid/Dot.cs:50-53 | occupancy becomes exactly the argument; the position is kept |
| Dots.SetOccupiedLastWins | Assets/StickBlast/Scripts/Grid/Dot.cs:50-53 | two calls in a row equal the last one alone |
| Connections.Initialize | Assets/StickBlast/Scripts/Grid/Connection.cs:48-52 | records both endpoints and starts unoccupied |
| Connections.Occupy | Assets/StickBlast/Scripts/Grid/Connection.cs:68-70 | the connection becomes occupied; endpoints unchanged |
| Connections.Reset | Assets/StickBlast/Scripts/Grid/Connection.cs:114-117 | the connection becomes unoccupied; endpoints unchanged |
| Connections.OccupyResetInverse | Assets/StickBlast/Scripts/Grid/Connection.cs:68-70 | occupying a free connection then resetting it, or the reverse on an occupied one, gives back the original |
| Cells.Initialize | Assets/StickBlast/Scripts/Level/Grid/Cells/Cell.cs:15-26 | a new cell has the field defaults: neither complete nor holding a collectible |
| Cells.SetComplete | Assets/StickBlast/Scripts/Level/Grid/Cells/Cell.cs:89-103 | `IsComplete` afterwards is exactly the argument; the collectible is untouched |
| Cells.Reset | Assets/StickBlast/Scripts/Level/Grid/Cells/Cell.cs:140-149 | the cell ends incomplete; the collectible is untouched |
| Cells.SetCollectible | Assets/StickBlast/Scripts/Level/Grid/Cells/Cell.cs:213-227 | no change when the cell is complete or already holds one; otherwise it holds an item of the given type |
| Cells.SpawnCollectible | Assets/StickBlast/Scripts/Level/Grid/Cells/Cell.cs:204-211 | the same guard as `SetCollectible`, without setting a type |
| Cells.CollectItem | Assets/StickBlast/Scripts/Level/Grid/Cells/Cell.cs:229-237 | with an item present its type is reported once and the cell ends empty; without one nothing happens |
| Cells.CollectItemOnce | Assets/StickBlast/Scripts/Level/Grid/Cells/Cell.cs:229-247 | a second collection reports nothing and changes nothing |
| Cells.CellBlasted | Assets/StickBlast/Scripts/Level/Grid/Cells/Cell.cs:171-174 | the cell ends incomplete and empty; when it held an item, exactly one `ItemCollected` event carrying that item's type is reported, and otherwise none |
| ConnectionManager.GetConnection | Assets/StickBlast/Scripts/Grid/Connections/ConnectionManager.cs:14-26 | any connection found exists; for two in-bounds unit-adjacent dots one is always found, and its endpoints are exactly those dots in some order |
| ConnectionManager.GetConnectionSymmetric | Assets/StickBlast/Scripts/Grid/Connections/ConnectionManager.cs:14-26 | for an axis-aligned pair the argument order does not matter |
| ConnectionManager.GetConnectionOfEndpoints | Assets/StickBlast/Scripts/Grid/Connections/ConnectionManager.cs:14-26 | looking a connection up by its own endpoints, in either order, finds it |
| ConnectionManager.GetCellConnections | Assets/StickBlast/Scripts/Grid/Connections/ConnectionManager.cs:55-64 | four distinct sides, in the order bottom, right, top, left of the unit square at the cell |
| ConnectionManager.CellSidesExist | Assets/StickBlast/Scripts/Grid/Connections/ConnectionManager.cs:55-64 | every side of an in-bounds cell is an existing connection, so the lookups stay in range |
| ConnectionManager.IncidentEdges | Assets/StickBlast/Scripts/Grid/Connections/ConnectionManager.cs:66-76 | the four slots the test looks at are exactly the slots having the dot as an endpoint |
| ConnectionManager.DotHasOccupiedConnectionsMeaning | Assets/StickBlast/Scripts/Grid/Connections/ConnectionManager.cs:66-76 | every guarded lookup of an in-bounds dot is in range, and the test holds exactly when some occupied connection ends at the dot |
| ConnectionManager.OccupiedSlotGuard | Assets/StickBlast/Scripts/Grid/Connections/ConnectionManager.cs:66-76 | an occupied connection at one of the dot's four slots always makes the test true |
| ConnectionManager.CheckAndResetDot | Assets/StickBlast/Scripts/Grid/Cells/BlastManager.cs:264-271 | only this dot can change, and it stays occupied only if one of its connections is occupied |
| ConnectionManager.ResetEdges | Assets/StickBlast/Scripts/Grid/Cells/BlastManager.cs:97-99 | the occupied connections afterwards are exactly the earlier ones outside the set; endpoints and shapes are kept |
| ConnectionManager.ClearBareDots | Assets/StickBlast/Scripts/Grid/Cells/BlastManager.cs:100-101 | a dot is cleared exactly when it is an endpoint of a reset connection and has no occupied connection left; all others are kept |
| ConnectionManager.ResetConnections | Assets/StickBlast/Scripts/Grid/Cells/BlastManager.cs:97-102 | resetting a set of connections together with their endpoint dot checks keeps shapes, cells and well-formedness and has both effects above |
| ConnectionManager.ResetConnectionsEmpty | Assets/StickBlast/Scripts/Grid/Cells/BlastManager.cs:97-102 | resetting no connections changes nothing |
| ConnectionManager.ResetConnectionsCompose | Assets/StickBlast/Scripts/Grid/Cells/BlastManager.cs:97-102 | resetting one set and then another equals resetting their union |
| ConnectionManager.ResetOrderIrrelevant | Assets/StickBlast/Scripts/Grid/Cells/BlastManager.cs:97-102 | resetting connections one at a time, each followed by its two dot checks, ends in the same grid as the set-wise reset, whatever the order |
| ConnectionManager.InOrderIsSet | Assets/StickBlast/Scripts/Grid/Connections/ConnectionManager.cs:28-53 | the same order-independence for any sequence of connections whose stored endpoints match their slots |
| ConnectionManager.ResetCellConnectionsEffect | Assets/StickBlast/Scripts/Grid/Connections/ConnectionManager.cs:28-53 | `ResetCellConnections` is the set-wise reset of the cell's sides and leaves all four unoccupied |
| ConnectionManager.ResetConnectionsKeepsDotsConsistent | Assets/StickBlast/Scripts/Grid/Connections/ConnectionManager.cs:37-51 | if dots were occupied exactly when touched by an occupied connection, that stays true after a reset |
| Sticks.Angle | Assets/StickBlast/Scripts/Sticks/StickDefinition.cs:22 | the angle of an orientation is 0, 90, 180 or 270 |
| Sticks.AngleInjective | Assets/StickBlast/Scripts/Sticks/StickDefinition.cs:22 | different orientations give different angles |
| Sticks.RotatePoint | Assets/StickBlast/Scripts/Level/Sticks/Data/StickSegment.cs:17-34 | 0, 90, 180 and 270 degrees map (x,y) to (x,y), (y,−x), (−x,−y) and (−y,x) |
| Sticks.Compose | Assets/StickBlast/Scripts/Level/Sticks/Data/StickSegment.cs:17-34 | the composed orientation turns by the sum of the angles modulo 360 |
| Sticks.RotatePointCompose | Assets/StickBlast/Scripts/Level/Sticks/Data/StickSegment.cs:17-34 | turning twice equals turning once by the composed angle |
| Sticks.RotatePointInverse | Assets/StickBlast/Scripts/Level/Sticks/Data/StickSegment.cs:17-34 | the opposite turn undoes a turn |
| Sticks.RotatePointLinear | Assets/StickBlast/Scripts/Level/Sticks/Data/StickSegment.cs:17-34 | turning commutes with taking differences, so relative positions turn rigidly |
| Sticks.Rotate | Assets/StickBlast/Scripts/Level/Sticks/Data/StickSegment.cs:17-34 | a segment is unit axis-aligned before the turn exactly when it is after it |
| Sticks.GetRotatedSegments | Assets/StickBlast/Scripts/Sticks/StickDefinition.cs:20-31 | same length, element i is segment i turned, and unit segments stay unit segments |
| Sticks.GetRotatedSegmentsInverse | Assets/StickBlast/Scripts/Sticks/StickDefinition.cs:20-31 | turning the result back gives the definition's own segments, which are never changed |
| Sticks.Create | Assets/StickBlast/Scripts/Sticks/StickData.cs:12-20 | stores definition and orientation; the segments are the definition's turned by that orientation, as many as the definition has |
| Rounding.RoundHalfEven | Assets/StickBlast/Scripts/Level/Grid/Core/GridValidator.cs:106-114 | the result is the integer nearest to num/den, the even one on a tie |
| Rounding.RoundHalfEvenUnique | Assets/StickBlast/Scripts/Level/Grid/Core/GridValidator.cs:106-114 | only one integer meets that description |
| Rounding.RoundHalfEvenBetween | Assets/StickBlast/Scripts/Level/Grid/Core/GridValidator.cs:106-114 | a fraction between two integers rounds to a value between them |
| GridValidator.IsConnectionOccupiedMeaning | Assets/StickBlast/Scripts/Level/Grid/Core/GridValidator.cs:26-30 | a missing connection counts as occupied; for a valid pair the test holds exactly when an occupied connection joins the two dots |
| GridValidator.OccupiedEdgeBetween | Assets/StickBlast/Scripts/Level/Grid/Core/GridValidator.cs:17-24 | for a valid pair the lookup finds the one connection joining the two dots |
| GridValidator.CanPlaceStickMeaning | Assets/StickBlast/Scripts/Level/Grid/Core/GridValidator.cs:32-63 | a stick fits exactly when every shifted segment joins two in-bounds unit-adjacent dots and no occupied connection joins them |
| GridValidator.CenterOffset | Assets/StickBlast/Scripts/Level/Grid/Core/GridValidator.cs:106-114 | each coordinate is the mean of the segment midpoints, Σ(start+end)/2n, rounded half to even |
| GridValidator.MinCoord | Assets/StickBlast/Scripts/Level/Grid/Core/GridValidator.cs:70-82 | the least endpoint coordinate on the axis, attained by some endpoint |
| GridValidator.MaxCoord | Assets/StickBlast/Scripts/Level/Grid/Core/GridValidator.cs:70-82 | the greatest endpoint coordinate on the axis, attained by some endpoint |
| GridValidator.CenterInBoundingBox | Assets/StickBlast/Scripts/Level/Grid/Core/GridValidator.cs:67-82 | the rounded centre lies inside the segments' bounding box |
| GridValidator.ScanClampsRedundant | Assets/StickBlast/Scripts/Level/Grid/Core/GridValidator.cs:84-87 | the `Max(0, …)` and `Min(W−1, …)` clamps never bind: the scan bounds are the unclamped values |
| GridValidator.ScanRangeExact | Assets/StickBlast/Scripts/Level/Grid/Core/GridValidator.cs:84-89 | an origin keeps every endpoint in range on an axis exactly when it lies in the scan range for that axis |
| GridValidator.PlaceableInScan | Assets/StickBlast/Scripts/Level/Grid/Core/GridValidator.cs:84-101 | every origin where the stick fits lies inside the scanned rectangle |
| GridValidator.NoFitOutsideScan | Assets/StickBlast/Scripts/Level/Grid/Core/GridValidator.cs:89-103 | if no origin in the rectangle fits, no origin at all fits |
| GridValidator.ScanDecides | Assets/StickBlast/Scripts/Level/Grid/Core/GridValidator.cs:89-103 | the rectangle's answer is the answer for all integer origins |
| GridValidator.ScanColumn | Assets/StickBlast/Scripts/Level/Grid/Core/GridValidator.cs:94-100 | the inner loop returns true exactly when some y in range fits |
| GridValidator.ScanRectangle | Assets/StickBlast/Scripts/Level/Grid/Core/GridValidator.cs:92-103 | the double loop returns true exactly when some origin of the rectangle fits |
| GridValidator.CanStickBePlacedAnywhere | Assets/StickBlast/Scripts/Level/Grid/Core/GridValidator.cs:65-104 | true exactly when the stick fits at some integer origin |
| BlastManager.ResetCombo | Assets/StickBlast/Scripts/Grid/Cells/BlastManager.cs:24-27 | the combo becomes 0; the blasting flag is kept |
| BlastManager.IsRowComplete | Assets/StickBlast/Scripts/Grid/Cells/BlastManager.cs:188-207 | the count reaches W−1 exactly when every cell of the row is flagged complete or has four occupied sides |
| BlastManager.IsColumnComplete | Assets/StickBlast/Scripts/Grid/Cells/BlastManager.cs:209-228 | the same for a column and H−1 |
| BlastManager.IsLineCompleteMeaning | Assets/StickBlast/Scripts/Grid/Cells/BlastManager.cs:188-228 | a line is complete exactly when every one of its cells counts as complete |
| BlastManager.CompleteRows | Assets/StickBlast/Scripts/Grid/Cells/BlastManager.cs:138-145 | exactly the complete rows below the bound, in increasing order |
| BlastManager.CompleteColumns | Assets/StickBlast/Scripts/Grid/Cells/BlastManager.cs:147-154 | exactly the complete columns below the bound, in increasing order |
| BlastManager.CollectAllBlastPositions | Assets/StickBlast/Scripts/Grid/Cells/BlastManager.cs:132-157 | lists exactly the in-range complete lines, without repetition, rows before columns |
| BlastManager.BlastPoints | Assets/StickBlast/Scripts/Grid/Cells/BlastManager.cs:51 | no line scores 10 and each extra line doubles the score, i.e. 2^n·10, so the score is at least 10 |
| BlastManager.CellsToReset | Assets/StickBlast/Scripts/Grid/Cells/BlastManager.cs:59-65 | the union of the cells of the blasted lines, each once |
| BlastManager.ConnectionsToReset | Assets/StickBlast/Scripts/Grid/Cells/BlastManager.cs:67-83 | exactly the occupied sides of the in-bounds cells to reset |
| BlastManager.ClearCells | Assets/StickBlast/Scripts/Grid/Cells/BlastManager.cs:85-95 | a cell stays complete only if it is not reset; collectibles stay |
| BlastManager.CheckAndResetPartialCells | Assets/StickBlast/Scripts/Grid/Cells/BlastManager.cs:113-130 | a cell stays complete only with four occupied sides, so afterwards complete implies full; a grid that already satisfies this is unchanged |
| BlastManager.Wave | Assets/StickBlast/Scripts/Grid/Cells/BlastManager.cs:59-104 | one wave keeps the shape and well-formedness and leaves every complete cell full |
| BlastManager.WaveEdges | Assets/StickBlast/Scripts/Grid/Cells/BlastManager.cs:67-99 | after a wave, a connection is occupied exactly when it was before and borders no reset cell |
| BlastManager.WaveClearsLines | Assets/StickBlast/Scripts/Grid/Cells/BlastManager.cs:85-99 | every reset cell ends neither complete nor full |
| BlastManager.WaveKeepsOtherCells | Assets/StickBlast/Scripts/Grid/Cells/BlastManager.cs:104 | any other cell stays complete exactly when it was complete and is still full |
| BlastManager.WaveKeepsCollectibles | Assets/StickBlast/Scripts/Grid/Cells/BlastManager.cs:85-95 | a wave never touches collectibles or dot positions |
| BlastManager.WaveKeepsDotsConsistent | Assets/StickBlast/Scripts/Grid/Cells/BlastManager.cs:97-102 | dots occupied exactly when touched by an occupied connection stay so |
| BlastManager.WaveMonotone | Assets/StickBlast/Scripts/Grid/Cells/BlastManager.cs:59-104 | a cell counting as complete after a wave counted as complete before it |
| BlastManager.WaveClearsCell | Assets/StickBlast/Scripts/Grid/Cells/BlastManager.cs:85-95 | a reset cell is never complete after the wave |
| BlastManager.WaveSubsets | Assets/StickBlast/Scripts/Grid/Cells/BlastManager.cs:59-104 | occupied connections and complete cells only shrink |
| BlastManager.WaveShrinks | Assets/StickBlast/Scripts/Grid/Cells/BlastManager.cs:106-110 | with W, H ≥ 2 and a complete line, a wave strictly lowers the number of occupied connections plus complete cells |
| BlastManager.NoLinesAfterWave | Assets/StickBlast/Scripts/Grid/Cells/BlastManager.cs:106-110 | the re-check after a wave of all complete lines finds no line |
| BlastManager.NoLineAfterWave | Assets/StickBlast/Scripts/Grid/Cells/BlastManager.cs:106-110 | no single in-range line is complete after that wave |
| BlastManager.WaveEvents | Assets/StickBlast/Scripts/Grid/Cells/BlastManager.cs:50-51 | a wave of n lines plays the blast sound n times and reports 2^n·10 points |
| BlastManager.ProcessBlasts | Assets/StickBlast/Scripts/Grid/Cells/BlastManager.cs:44-111 | always ends with no complete line; with none at the start nothing changes; otherwise the combo rises and the blast sound and points come first; the combo rises by exactly the number of score reports emitted |
| BlastManager.ProcessBlastsIsOneWave | Assets/StickBlast/Scripts/Grid/Cells/BlastManager.cs:106-110 | with a complete line, the whole recursion is one wave, one combo step and one sound-and-points pair |
| BlastManager.CheckForBlast | Assets/StickBlast/Scripts/Grid/Cells/BlastManager.cs:29-42 | does nothing while blasting; otherwise leaves the flag clear and no line complete; the combo never falls, it rises by exactly the number of score reports emitted, and an unchanged combo means an unchanged grid |
| BlastManager.CheckForBlastIsOneWave | Assets/StickBlast/Scripts/Grid/Cells/BlastManager.cs:29-42 | with a complete line and no blast running, the result is exactly one wave with the combo one higher |
| CellManager.MarkComplete | Assets/StickBlast/Scripts/Grid/Cells/CellManager.cs:29 | only this cell changes; it becomes complete and keeps its collectible |
| CellManager.CheckAndCompleteCell | Assets/StickBlast/Scripts/Grid/Cells/CellManager.cs:21-35 | out-of-bounds, already complete or not full means no change and no sound; completing plays the sound first; the combo never falls and rises by exactly the number of score reports emitted; without a blast only this cell changes |
| CellManager.CompletionWithoutBlast | Assets/StickBlast/Scripts/Grid/Cells/CellManager.cs:26-34 | when marking leaves no complete line, the result is the marked grid and one sound |
| CellManager.CompletionWithBlast | Assets/StickBlast/Scripts/Grid/Cells/CellManager.cs:26-34 | when marking completes a line, the result is the marked grid after one wave, with the combo one higher |
| CellManager.SettledHasNoLines | Assets/StickBlast/Scripts/Grid/Cells/BlastManager.cs:132-157 | a settled grid has no line to blast |
| CellManager.CheckAndCompleteCellSettles | Assets/StickBlast/Scripts/Grid/Cells/CellManager.cs:21-35 | checking a cell removes it from the cells still pending, and the rest of the invariant is kept |
| CellManager.MarkKeepsPending | Assets/StickBlast/Scripts/Grid/Cells/CellManager.cs:29 | marking a full cell keeps complete-implies-full and dot consistency and takes the cell off the pending list |
| CellManager.WaveKeepsPending | Assets/StickBlast/Scripts/Grid/Cells/BlastManager.cs:59-110 | a wave of all complete lines restores the invariant for the same pending cells |
| CellManager.GetCompletedCellsInRow | Assets/StickBlast/Scripts/Grid/Cells/CellManager.cs:52-60 | the count lies in [0, W−1] and reaches W−1 exactly when every cell of the row is complete |
| CellManager.GetCompletedCellsInColumn | Assets/StickBlast/Scripts/Grid/Cells/CellManager.cs:62-70 | the count lies in [0, H−1] and reaches H−1 exactly when every cell of the column is complete |
| CellManager.CompletedRowIsBlastable | Assets/StickBlast/Scripts/Grid/Cells/CellManager.cs:52-60 | a row whose completed count is full is a line `BlastManager` blasts |
| CellManager.CompletedColumnIsBlastable | Assets/StickBlast/Scripts/Grid/Cells/CellManager.cs:62-70 | the same for columns |
| CellManager.ShowBlastPreview | Assets/StickBlast/Scripts/Grid/Cells/CellManager.cs:46-50 | the preview set gains exactly this cell |
| CellManager.ClearBlastPreviews | Assets/StickBlast/Scripts/Grid/Cells/CellManager.cs:37-44 | the preview set becomes empty |
| CellManager.PreviewLaws | Assets/StickBlast/Scripts/Grid/Cells/CellManager.cs:37-50 | showing a cell twice is the same as once, and clearing forgets every shown cell |
| PlacementManager.OccupyConnection | Assets/StickBlast/Scripts/Level/Grid/Core/GridPlacementManager.cs:110-117 | exactly this connection becomes occupied, both its dots become occupied, and no other dot or cell changes |
| PlacementManager.OccupyKeepsDotsConsistent | Assets/StickBlast/Scripts/Level/Grid/Core/GridPlacementManager.cs:110-117 | occupying a valid connection and its two dots keeps every dot occupied exactly when touched by an occupied connection |
| PlacementManager.OccupyLeavesPending | Assets/StickBlast/Scripts/Level/Grid/Core/GridPlacementManager.cs:99-103 | from a settled grid, occupying one segment leaves only its two adjacent cells pending |
| PlacementManager.AdjacentCellsSymmetric | Assets/StickBlast/Scripts/Level/Grid/Core/GridPlacementManager.cs:131-153 | the two straddling cells do not depend on the segment's direction |
| PlacementManager.SlotBesideCells | Assets/StickBlast/Scripts/Level/Grid/Core/GridPlacementManager.cs:131-153 | a valid segment's connection is a side of a cell exactly when that cell is one of the two adjacent positions |
| PlacementManager.CheckAdjacentCells | Assets/StickBlast/Scripts/Level/Grid/Core/GridPlacementManager.cs:119-129 | keeps shape and flags; the combo rises by exactly the number of score reports emitted; without a blast only the two adjacent cells can change |
| PlacementManager.CheckAdjacentCellsSettles | Assets/StickBlast/Scripts/Level/Grid/Core/GridPlacementManager.cs:119-129 | checking both adjacent cells settles a grid in which only they were pending |
| PlacementManager.PlaceSegment | Assets/StickBlast/Scripts/Level/Grid/Core/GridPlacementManager.cs:96-104 | the combo rises by exactly the number of score reports emitted; without a blast the occupied connections are the earlier ones plus, when there is one, the segment's own slot, which ends occupied |
| PlacementManager.PlaceSegmentSettles | Assets/StickBlast/Scripts/Level/Grid/Core/GridPlacementManager.cs:94-105 | placing one valid segment keeps a settled grid settled, even when a blast fires |
| PlacementManager.PlaceSegments | Assets/StickBlast/Scripts/Level/Grid/Core/GridPlacementManager.cs:94-105 | segments are placed in order, and a blast may fire between them; the combo rises by exactly the number of score reports emitted; without a blast the occupied connections are the earlier ones plus the slots the segments land on, and every segment's slot ends occupied |
| PlacementManager.PlaceSegmentsSettles | Assets/StickBlast/Scripts/Level/Grid/Core/GridPlacementManager.cs:94-105 | placing the segments one by one keeps a settled grid settled |
| PlacementManager.PlaceStick | Assets/StickBlast/Scripts/Level/Grid/Core/GridPlacementManager.cs:83-108 | placed exactly when the stick fits at the rounded centre; a refusal changes nothing and fades the preview sound; on success the combo restarts from 0, so the combo left equals the number of waves (score reports) this placement fired; when none fired, a connection is occupied afterwards exactly when it was before or a segment lands on it |
| PlacementManager.PlaceStickSettles | Assets/StickBlast/Scripts/Level/Grid/Core/GridPlacementManager.cs:83-108 | placing a stick keeps a settled grid settled |
| PlacementManager.MatchingIsTheSlot | Assets/StickBlast/Scripts/Level/Grid/Core/GridPlacementManager.cs:283-287 | a connection matches a valid segment, in either direction, exactly when it is the segment's own connection |
| PlacementManager.WouldCompleteCellMeaning | Assets/StickBlast/Scripts/Level/Grid/Core/GridPlacementManager.cs:269-281 | the prediction holds exactly when occupying this one segment would make the cell full |
| PlacementManager.CellsClosedBy | Assets/StickBlast/Scripts/Level/Grid/Core/GridPlacementManager.cs:255-264 | exactly the adjacent in-bounds incomplete cells the one segment would complete |
| PlacementManager.SimulatePlacement | Assets/StickBlast/Scripts/Level/Grid/Core/GridPlacementManager.cs:247-267 | a cell is reported exactly when some single segment of the stick would close it |
| PlacementManager.SimulatePlacementMeaning | Assets/StickBlast/Scripts/Level/Grid/Core/GridPlacementManager.cs:247-281 | every reported cell is in bounds and incomplete, and one segment alone makes it full on the unchanged grid |
| PlacementManager.CalculateBlastCells | Assets/StickBlast/Scripts/Level/Grid/Core/GridPlacementManager.cs:200-245 | exactly the in-bounds cells whose row count reaches W−1 or whose column count reaches H−1 once predicted cells are added |
| PlacementManager.RowCompletionsMeaning | Assets/StickBlast/Scripts/Level/Grid/Core/GridPlacementManager.cs:204-224 | with predicted cells not yet complete, a row reaches the bound exactly when each of its cells is complete or predicted |
| PlacementManager.ColumnCompletionsMeaning | Assets/StickBlast/Scripts/Level/Grid/Core/GridPlacementManager.cs:205-235 | the same for columns |
| PlacementManager.CalculateBlastCellsMeaning | Assets/StickBlast/Scripts/Level/Grid/Core/GridPlacementManager.cs:200-245 | a cell is previewed exactly when its whole row or whole column would be complete or predicted |
| GridManager.PlaceStick | Assets/StickBlast/Scripts/Grid/Core/GridManager.cs:80-86 | outside Playing nothing changes and nothing is played; inside, a stick is placed exactly when the facade's `CanPlaceStick` accepts it |
| GridManager.PlaceStickKeepsSettled | Assets/StickBlast/Scripts/Grid/Core/GridManager.cs:68-86 | the facade keeps a settled grid settled, using one blast state for the combo reset and the completions |
| GridManager.InitializeGridEmpty | Assets/StickBlast/Scripts/Level/Grid/Core/GridInitializer.cs:27-97 | the initializer leaves no connection or dot occupied and no cell complete |
| GridManager.EmptySettled | Assets/StickBlast/Scripts/Grid/Core/GridManager.cs:60-71 | a grid of at least one cell with nothing occupied or complete satisfies the between-moves invariant |
| GridManager.InitializeGridSettled | Assets/StickBlast/Scripts/Grid/Core/GridManager.cs:60-71 | the grid the managers start from (at least 2×2 dots) is settled, the base case for `PlaceStickKeepsSettled` |
| GridManager.IsValidGridPositionMeaning | Assets/StickBlast/Scripts/Grid/Core/GridManager.cs:131-134 | a valid grid position is exactly the position of a dot |
| GameManager.InitialState | Assets/StickBlast/Scripts/Core/GameManager.cs:43-47 | the game starts Playing |
| GameManager.StartGame | Assets/StickBlast/Scripts/Core/GameManager.cs:49-53 | from any state the game is Playing, and the music starts |
| GameManager.WinGame | Assets/StickBlast/Scripts/Core/GameManager.cs:55-61 | Playing becomes Won with the win sound; any other state is left alone, silently |
| GameManager.LoseGame | Assets/StickBlast/Scripts/Core/GameManager.cs:63-69 | Playing becomes Lost with the lose sound; any other state is left alone, silently |
| GameManager.OutcomeIsFinal | Assets/StickBlast/Scripts/Core/GameManager.cs:55-69 | once won or lost, winning or losing again changes nothing |
| GameManager.EndedStaysEnded | Assets/StickBlast/Scripts/Core/GameManager.cs:55-69 | without a restart, no sequence of win and lose calls leaves a finished game |
| GameManager.AtMostOneOutcome | Assets/StickBlast/Scripts/Core/GameManager.cs:55-69 | without a restart, at most one end-of-game sound plays, and the game is still Playing exactly when none did |
| PointWinCondition.Initialize | Assets/StickBlast/Scripts/Level/WinConditions/PointWinCondition.cs:11-14 | the total restarts at 0; the target is kept |
| PointWinCondition.AddPoints | Assets/StickBlast/Scripts/Level/WinConditions/PointWinCondition.cs:16-23 | the total grows by exactly the argument; the game is won exactly when the new total reaches the target |
| PointWinCondition.AddPointsAdditive | Assets/StickBlast/Scripts/Level/WinConditions/PointWinCondition.cs:16-18 | adding a and then b totals the same as adding a+b |
| PointWinCondition.ReachedStaysReached | Assets/StickBlast/Scripts/Level/WinConditions/PointWinCondition.cs:25-28 | with non-negative points, a reached target stays reached |
| PointWinCondition.ProgressTextReadsBack | Assets/StickBlast/Scripts/Level/WinConditions/PointWinCondition.cs:30-33 | the text is two numerals around the first '/', and they parse back to the total and the target |
| CollectItemsWinCondition.Initialize | Assets/StickBlast/Scripts/Level/WinConditions/CollectItemsWinCondition.cs:19-26 | exactly the required item types have a counter, each at 0 |
| CollectItemsWinCondition.InitializeMetIffNothingRequired | Assets/StickBlast/Scripts/Level/WinConditions/CollectItemsWinCondition.cs:39-50 | a fresh goal is already met exactly when no requirement asks for more than 0, which includes having no requirements |
| CollectItemsWinCondition.CollectItem | Assets/StickBlast/Scripts/Level/WinConditions/CollectItemsWinCondition.cs:28-37 | an uncounted type changes nothing; otherwise only that counter rises by one, and the game is won exactly when the goal is then met |
| CollectItemsWinCondition.MetStaysMet | Assets/StickBlast/Scripts/Level/WinConditions/CollectItemsWinCondition.cs:28-50 | a met goal stays met after any collection |
| CollectItemsWinCondition.CollectAllCounts | Assets/StickBlast/Scripts/Level/WinConditions/CollectItemsWinCondition.cs:28-37 | after a run of collections each counter has grown by the number of its items in the run |
| CollectItemsWinCondition.JoinSnoc | Assets/StickBlast/Scripts/Level/WinConditions/CollectItemsWinCondition.cs:52-65 | appending an entry to the joined text puts one separator before it |
| CollectItemsWinCondition.GetProgressText | Assets/StickBlast/Scripts/Level/WinConditions/CollectItemsWinCondition.cs:52-65 | the loop's text is the "name: collected/required" entries in order, joined by ", " |
| Text.NatToString | Assets/StickBlast/Scripts/Level/WinConditions/PointWinCondition.cs:32 | decimal digits with no leading zero |
| Text.IntToString | Assets/StickBlast/Scripts/Level/WinConditions/PointWinCondition.cs:32 | non-empty, starting with '-' exactly for negatives, otherwise digits |
| Text.ParseNatToString | Assets/StickBlast/Scripts/Level/WinConditions/PointWinCondition.cs:32 | the digits parse back to the number |
| Text.ParseIntToString | Assets/StickBlast/Scripts/Level/WinConditions/PointWinCondition.cs:32 | the numeral parses back to the integer |
| Text.IntToStringInjective | Assets/StickBlast/Scripts/Level/WinConditions/PointWinCondition.cs:32 | different integers are written differently |
| StickSpawner.FreeCountZero | Assets/StickBlast/Scripts/Sticks/StickSpawner.cs:179-187 | no free slot is left exactly when every slot holds a stick |
| StickSpawner.FreeCountFill | Assets/StickBlast/Scripts/Sticks/StickSpawner.cs:91 | filling a free slot lowers the free count by one |
| StickSpawner.FirstFreeSlot | Assets/StickBlast/Scripts/Sticks/StickSpawner.cs:62-70 | none exactly when all slots are taken; otherwise a free slot with every earlier slot taken |
| StickSpawner.GetRandomStickData | Assets/StickBlast/Scripts/Sticks/StickSpawner.cs:138-152 | the stick is an available definition, with as many segments as it has |
| StickSpawner.SpawnRandomStick | Assets/StickBlast/Scripts/Sticks/StickSpawner.cs:60-92 | a full tray is unchanged; otherwise only the lowest free slot changes, it receives a stick, and the free count drops by one; trays built from definitions stay so |
| StickSpawner.SpawnAll | Assets/StickBlast/Scripts/Sticks/StickSpawner.cs:52-58 | repeated spawns never move or replace a waiting stick |
| StickSpawner.SpawnAllFreeCount | Assets/StickBlast/Scripts/Sticks/StickSpawner.cs:52-58 | each spawn fills one slot while any is free |
| StickSpawner.SpawnNewStickGroup | Assets/StickBlast/Scripts/Sticks/StickSpawner.cs:52-58 | afterwards every slot holds a stick, and waiting sticks stay where they were |
| StickSpawner.OnStickPlaced | Assets/StickBlast/Scripts/Sticks/StickSpawner.cs:169-187 | the slot is freed; a whole new group is spawned only when that empties the tray, and otherwise nothing else changes |
| StickSpawner.IsGameOver | Assets/StickBlast/Scripts/Sticks/StickSpawner.cs:154-167 | true exactly when no waiting stick fits anywhere |
| StickSpawner.CheckGameOver | Assets/StickBlast/Scripts/Sticks/StickSpawner.cs:189-205 | the game is lost, with a vibration first, exactly when neither the dropped stick nor any other waiting stick fits |
| GridDebugger.FillConnection | Assets/StickBlast/Scripts/Grid/Debug/GridDebugger.cs:49-60 | occupies the connection between the dots, if there is one, with no validation, no cell check and no combo reset |
| GridDebugger.FillAll | Assets/StickBlast/Scripts/Grid/Debug/GridDebugger.cs:20-40 | a run of fills keeps the grid's shape and its cells |
| GridDebugger.FillAllOccupied | Assets/StickBlast/Scripts/Grid/Debug/GridDebugger.cs:20-40 | after a run of fills the occupied connections are the earlier ones plus the slots of the filled pairs |
| GridDebugger.FillRowsOccupied | Assets/StickBlast/Scripts/Grid/Debug/GridDebugger.cs:20-26 | the first loop adds the connections x∈{0,1,2,4} to x+1 on rows 2 to 4 |
| GridDebugger.FillRungsOccupied | Assets/StickBlast/Scripts/Grid/Debug/GridDebugger.cs:28-40 | the twelve calls add the connections y to y+1 for all six columns at y = 2 and 3 |
| GridDebugger.FillPatternConnectionsOccupied | Assets/StickBlast/Scripts/Grid/Debug/GridDebugger.cs:20-40 | a free connection ends occupied exactly when it belongs to the pattern |
| GridDebugger.PhaseHasNoLines | Assets/StickBlast/Scripts/Grid/Debug/GridDebugger.cs:42-46 | with the pattern in place, no row or column can blast |
| GridDebugger.CheckStep | Assets/StickBlast/Scripts/Grid/Debug/GridDebugger.cs:44-45 | checking a cell of rows 2 and 3 completes it, with one sound, exactly when it is a pattern cell; nothing blasts |
| GridDebugger.ColumnPattern | Assets/StickBlast/Scripts/Grid/Debug/GridDebugger.cs:42-46 | one iteration completes both cells of column x with two sounds, except column 3 where nothing completes |
| GridDebugger.CompleteFromPattern | Assets/StickBlast/Scripts/Grid/Debug/GridDebugger.cs:42-46 | the remaining iterations complete exactly the remaining pattern cells, two sounds per column |
| GridDebugger.InitializeGridBlank | Assets/StickBlast/Scripts/Level/Grid/Core/GridInitializer.cs:27-34 | a fresh six-wide grid of height at least 5 has no occupied connection and no complete cell |
| GridDebugger.FillTestPatternRun | Assets/StickBlast/Scripts/Grid/Debug/GridDebugger.cs:18-46 | on a blank six-wide grid the whole run completes every pattern cell with eight sounds and leaves the combo alone |
| GridDebugger.PatternDone | Assets/StickBlast/Scripts/Grid/Debug/GridDebugger.cs:42-46 | with every pattern cell done, cells (3,2) and (3,3) stay incomplete and no line is complete |
| GridDebugger.FillTestPatternScenario | Assets/StickBlast/Scripts/Grid/Debug/GridDebugger.cs:18-46 | on a blank six-wide grid the connections (3,y)–(4,y) stay empty; exactly cells x∈{0,1,2,4} of rows 2 and 3 complete, with eight sounds; no blast fires |

## Left out

- Rendering, colours, materials, line widths, highlights, blast visuals and particle effects are
  not modelled. The model keeps only the occupancy, completion and collectible state these
  classes hold.
- Highlight caching in the placement manager (`lastOrigin`, `lastCompletedCells`,
  `lastBlastCells`) and `ShowCompletionPreviews` are left out. They only avoid redundant redraws
  and sounds; the queries they call (`SimulatePlacement`, `CalculateBlastCells`) are modelled.
- Input, dragging, world-to-grid transforms, layout and easing are float code outside the core.
  This covers `WorldToGridPosition`, the slide-in coroutine and `BounceEaseOut`.
- Audio and vibration are `Event` values in the returned list. `PlaySoundDelayed("blast", n, …)`
  becomes one `SoundPlayedRepeatedly("blast", n)` event; its timing is not modelled.
- `LevelManager.AddPoints` appears as a `PointsAdded` event. LevelManager.cs:144-155 forwards it
  to the point goal. The collect path is an `ItemCollected` event: Cell.cs:233 calls
  `LevelManager.CollectItem`, which is not in LevelManager.cs. The target of that call is taken
  from CollectItemsWinCondition.cs. The wiring, scene loading and persistence are not modelled.
- Integer widths are not modelled: `int` is unbounded. The C# `int` score, coordinates and
  counters would wrap only far beyond any real grid.
- An array index out of range, which throws in C#, is modelled as a missing entry: `None`, or a
  false membership test. Where the source can only index in range, the model requires that
  instead. This applies to `GridDebugger.FillConnection`, which requires both dots in bounds.
- The blast code requires width and height of at least 2. With a zero-cell line the count tests
  hold vacuously, and the source's recursion would not stop.
- Every stick has at least one segment, because the centre offset divides by the segment count.
  `PlaceStick`, `CanStickBePlacedAnywhere` and the spawner require this.
- `GridManager.InitializeManagers` builds a second `BlastManager` after the placement manager
  already holds the first (Assets/StickBlast/Scripts/Grid/Core/GridManager.cs:68-72). The second
  one is never used for blasting, so the model has a single blast state.
- The remaining facade pass-throughs (`HighlightPotentialPlacement`, `ClearHighlights`,
  `CanStickBePlacedAnywhere`, `IsConnectionOccupied`) are the modelled validator and placement
  functions themselves. `CheckWinCondition` in the facade is dead, guarded by `if (false)`.
- The unused helpers in `BlastManager` are not modelled: `GetAllCellsToReset`,
  `CollectBlastPositions`, `RecheckAffectedCells`, `GetAllAffectedCells` and
  `CheckForChainReaction` (Assets/StickBlast/Scripts/Grid/Cells/BlastManager.cs:159-186, 273-316).
- Earlier revisions that redefine the same classes are not part of this model:
  - Assets/StickBlast/Scripts/Core/GridManager.cs
  - Assets/StickBlast/Scripts/Grid/Core/GridPlacementManager.cs
  - Assets/StickBlast/Scripts/Grid/Cells/Cell.cs
  - Assets/StickBlast/Scripts/Grid/Cell.cs
  - Assets/StickBlast/Scripts/UI/StickSpawner.cs
- `Random.Range` in the spawner is an input: a `Pick` names the definition index and the
  orientation. `GetRandomStickData` returns null on an empty definition list, which the source
  never handles; picks are required to be valid instead.
- Removing a placed stick's UI object is modelled as freeing its slot. `IsGameOver` and
  `CheckGameOver` take the waiting sticks from the tray instead of from the scene's children.
- The blast wave calls `SetComplete(false)` on the cells it clears, never `CellBlasted`, so
  collectibles survive a blast in the model as in the source.
- GridItemSpawner, which puts collectibles into cells on a timer, is not part of this model.
- `PlacementManager.SimulatePlacement` is not related to `PlacementManager.PlaceStick`. The
  preview only predicts cells closed by one segment and may under-report what a placement
  completes.
- GridDebugger.FillTestPatternScenario: stated for a blank grid exactly six dots wide. On a wider
  grid the loop at Assets/StickBlast/Scripts/Grid/Debug/GridDebugger.cs:42-46 checks more cells,
  and the result is not described.
