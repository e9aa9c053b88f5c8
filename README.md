# MAC grid, cells and particle observers of a FLIP fluid simulator

This project models the data layer of a 2D FLIP (fluid-implicit-particle) simulator. It covers three parts:

- **The staggered grid (MAC grid).** A `width x height` area is split into `nColumns x nRows` cells. The cells are numbered row by row from the south-west corner (`index = y * nColumns + x`).
- **The cells.** Each cell knows its bounds, centre and four half-edge points. It holds pointers to its north, south, east and west neighbours, a label (EMPTY, SOLID, FLUID) and a status (ACTIVE, INACTIVE). It reads and writes seven grid-wide scalar arrays through pointers: initial, current and delta velocity in U and in V, and pressure.
- **The observer protocol.** A particle tells the cells around it when it joins or leaves a cell.

The model keeps the program's shape:

- **Cells are objects and the arrays are shared.** `Cells.Storage` holds the seven arrays and the cell sequence. Every `Cells.Cell` has a `store` reference and an `index`, so a cell's getters and setters act on slot `index` of the shared arrays. A value written through one cell is therefore seen by the grid and by the neighbours that sample it (`Grids.Grid.CellsAliasArrays`).
- **Neighbour pointers are indices.** A cell's neighbours are `Option<nat>` indices into the cell sequence, with `None` for a null pointer.
- **Lists are fields.** The particle's observer list and the cell's guest list are `seq` fields that the methods reassign. The loops the source runs over them are `while`/`for` loops with invariants.
- **Floats are reals.** `float` is modelled as `real`, and `size_t` as `nat`.
- **Faults are results.** Every throw is a `Result` failure:
  - `RangeError` is `std::range_error`, thrown by the grid constructor and by the cell's samplers;
  - `OutOfRange` is `std::out_of_range`, thrown by `at()`, `column()` and `row()`;
  - `Undefined` is an unchecked `m_gridCell[...]` past the last cell. Only `Grids.Grid.Sample` can reach one, and it reports it as this failure.
- **Unchecked accesses are preconditions elsewhere.** The other unchecked `m_gridCell[...]` accesses (`cell`, `velocity`, `deltaVelocity`, `pressure`) take an index that names a cell as a `requires`.

The modules are:

- `Wrappers`: the `Option` and `Result` types.
- `Particles` (src/particle.cpp): the observer list and its operations.
- `Cells` (src/cell.cpp, include/cell.h): cell geometry, interpolation, the shared storage, the `Cell` class and `onNotify`.
- `Grids` (src/grid.cpp): dimensions, index arithmetic, neighbour wiring, locating a point, and the `Grid` class.

Where the code contradicts itself, the model keeps the code's behaviour in a member named `...AsWritten` and gives the evidently intended behaviour beside it. The rest of the model uses the intended version (see "## Findings").

Behaviour the model keeps as written:

- No constructor initialises a cell's particle count. It is `None` (indeterminate) until `ResetParticleCount`.
- On JOIN, the neighbour map is iterated in key order E, N, S, W, and null neighbours are subscribed as well. The source only checks `isObserver`, not null.
- Sampling the grid outside the closed area returns a zero vector. A point on the far east or far north edge passes that check but has no cell that can sample it. On the north edge the index is past the last cell. On the east edge the index names the first cell of the next row, which rejects the point with a range error; in the top row it equals the number of cells, so it is past the last cell as well.

`column()` and `row()` throw `std::out_of_range` for an index past the last column or row, while the grid constructor and the cell samplers throw `std::range_error`. The model keeps these apart as `OutOfRange` and `RangeError`.

## Model

| member | source | states |
|---|---|---|
| Particles.Without | src/particle.cpp:14-27 | removing an observer leaves a list that no longer contains it and is no longer than before |
| Particles.WithoutMembers | src/particle.cpp:14-27 | every entry left was in the list, and every entry other than the removed observer is still there |
| Particles.WithoutIsSubsequence | src/particle.cpp:14-27 | removal keeps the remaining observers in their original order |
| Particles.WithoutAbsent | src/particle.cpp:14-31 | removing an observer that is not in the list changes nothing; the not-found case does not throw |
| Particles.WithoutCounts | src/particle.cpp:14-27 | afterwards the removed observer occurs 0 times, and every other observer occurs as often as before |
| Particles.EraseAsWrittenCounterexamples | src/particle.cpp:19-27 | erase-then-increment runs past the end for `[x]`, and for `[x, x, y]` leaves an `x` behind where full removal leaves `[y]` |
| Particles.EraseAll | src/particle.cpp:17-27 | the removal loop, with erase returning the next position, leaves exactly the list without the observer |
| Particles.Particle.constructor | src/particle.cpp:3-6 | a new particle has no observers |
| Particles.Particle.AddObserver | src/particle.cpp:9-12 | appends the observer at the end, duplicates allowed |
| Particles.Particle.RemoveObserver | src/particle.cpp:14-31 | the observers become the old list without the given observer |
| Particles.Particle.IsObserver | src/particle.cpp:33-44 | true exactly when the observer is in the list |
| Particles.Subscribe | src/cell.cpp:312-315 | after subscribe-if-absent the observer is in the list |
| Particles.SubscribeAllSpec | src/cell.cpp:309-316 | subscribing the neighbours keeps the old list as a prefix, adds every neighbour, adds nothing else, and never creates a duplicate |
| Cells.LabelsAndStatuses | include/cell.h:13-16 | a label is EMPTY, SOLID or FLUID, and a status is ACTIVE or INACTIVE |
| Cells.MakeGeometry | src/cell.cpp:51-57 | the bounds are the two corners and the cell size is their difference |
| Cells.GeometryLayout | src/cell.cpp:59-65 | the centre is the midpoint, each half-edge point is the midpoint of its face, and all five lie in the cell |
| Cells.CopyAsWrittenBreaksGeometry | src/cell.cpp:85-115 | on a non-square cell a copy's deltaV is the width, so the copy's geometry is inconsistent and the north-face weight is not 1 |
| Cells.Interpolate | src/cell.cpp:199-208 | the U component is the own sample on the west face and the east neighbour's on the east face; the V component is the own sample on the south face and the north neighbour's on the north face; inside the cell both stay between their samples |
| Cells.InterpolateAsWrittenMissesNorthFace | src/cell.cpp:207-208 | at the north-west corner of a cell with its own deltaV the as-written V component is 0 whatever the samples, where the north sample is intended |
| Cells.InterpolateAsWrittenCopiedCell | src/cell.cpp:207-208 | on a cell copied as written (deltaV replaced by deltaU) the as-written V component at the north-west corner is (1 - deltaV/deltaU) * v, which takes nothing from the north sample |
| Cells.InterpolateAtCentre | src/cell.cpp:199-208 | at the centre each component is the mean of its two samples |
| Cells.Storage.constructor | src/grid.cpp:143-152 | the seven arrays are distinct, all of the grid size and all zero; there are no cells yet |
| Cells.Cell.constructor | src/cell.cpp:45-83 | a new cell is EMPTY and INACTIVE, has no guests or pool, has an indeterminate particle count, and has the geometry computed from its corners |
| Cells.Cell.Sample | src/cell.cpp:192-211 | a range error exactly when the point is outside the cell; otherwise the face values and betweenness of Cells.Interpolate, with a missing neighbour read as 0 |
| Cells.Cell.DivergenceIsNetFaceFlux | src/cell.cpp:233-242 | the divergence equals the east-minus-west difference of the sampled U plus the north-minus-south difference of the sampled V at the half-edge points |
| Cells.Cell.SetLabel | src/cell.cpp:250-253 | the label becomes the argument |
| Cells.Cell.SetStatus | src/cell.cpp:255-258 | the status becomes the argument |
| Cells.Cell.SetInitialVelocityU | src/cell.cpp:262-266 | the cell's initial-U slot and its current-U slot become the value; no other slot changes |
| Cells.Cell.SetVelocityU | src/cell.cpp:268-271 | only the cell's current-U slot changes |
| Cells.Cell.SetInitialVelocityV | src/cell.cpp:274-278 | the cell's initial-V slot and its current-V slot become the value; no other slot changes |
| Cells.Cell.SetVelocityV | src/cell.cpp:280-283 | only the cell's current-V slot changes |
| Cells.Cell.SetPressure | src/cell.cpp:287-290 | only the cell's pressure slot changes |
| Cells.Cell.ResetParticleCount | include/cell.h:92 | the count becomes 0 |
| Cells.Cell.IncrementParticleCount | include/cell.h:93 | a determinate count grows by one; an indeterminate one stays indeterminate |
| Cells.Cell.SetParticlePoolSize | include/cell.h:94 | the pool size becomes the argument |
| Cells.Cell.Handle | src/cell.cpp:77-80 | a neighbour pointer is null exactly when there is no neighbour, and otherwise is the grid's cell with that index |
| Cells.Cell.NeighbourHandles | src/cell.cpp:309-311 | the four neighbour pointers, in the map's key order, each null or one of the grid's cells |
| Cells.Cell.OnNotify | src/cell.cpp:293-363 | JOIN here: the particle becomes a guest, the cell turns ACTIVE, and each of the four neighbour pointers that is not yet an observer is subscribed, null ones included. LEAVE here: every occurrence of the particle leaves the guests, and the cell turns INACTIVE if none are left. LEAVE elsewhere: the cell unsubscribes itself exactly when no neighbour is ACTIVE. JOIN elsewhere: nothing changes |
| Grids.RowStartIsProduct | src/grid.cpp:209-212 | the first index of row y is y times the number of columns |
| Grids.ToIndexIsRowMajor | src/grid.cpp:209-212 | toIndex is y * nColumns + x, and the number of cells is nColumns * nRows |
| Grids.ToCartesianIsDivMod | src/grid.cpp:216-224 | toCartesian is the remainder and the quotient of the index by the number of columns |
| Grids.IndexRoundTrip | src/grid.cpp:210-225 | toIndex is below the size for in-range coordinates, and toCartesian gives back the coordinates |
| Grids.CartesianRoundTrip | src/grid.cpp:210-225 | every index below the size has in-range coordinates, and toIndex gives it back |
| Grids.ColumnIndex | src/grid.cpp:361-373 | cell k of a column exists exactly when k is below the number of rows, and consecutive cells are nColumns apart |
| Grids.Dimensions.Wiring | src/grid.cpp:180-190 | every neighbour index of the intended wiring is a cell of the grid |
| Grids.WiringAdjacency | src/grid.cpp:180-190 | in the intended wiring a cell has each neighbour exactly when it is not on that border, and the neighbour is the adjacent cell in that direction |
| Grids.WiringSymmetric | src/grid.cpp:180-190 | the intended wiring is symmetric: east/west and north/south neighbours point back at each other |
| Grids.WiringAsWrittenAgreesIff | src/grid.cpp:180-190 | the as-written guards give the intended wiring for every cell exactly when nColumns - 1 < width <= nColumns and nRows - 1 < height <= nRows |
| Grids.InitGridsAsWrittenThrowsIff | src/grid.cpp:180-190 | initGrids as written throws out_of_range exactly when width > nColumns or height > nRows |
| Grids.AsWrittenGuards | src/grid.cpp:180-190 | when the area is no larger than the cells, no cell throws as written, and a cell has an east or north neighbour exactly when its one-based column or row is below the width or height; as intended, exactly when it is not in the last column or row |
| Grids.CoarseAreaLosesNeighbours | src/grid.cpp:180-187 | for a 5 x 5 area in 15 x 15 cells, no cell throws as written, but the cells from column 4 on have no east neighbour and those from row 4 on no north neighbour, where only the last column and row should lack them |
| Grids.CellGeometryAt | src/grid.cpp:164-168 | the bounds of cell (x, y) are grid points x and x+1 in U and y and y+1 in V |
| Grids.CellGeometryProper | src/grid.cpp:164-168 | every cell's bounds are consistent, deltaU wide and deltaV high |
| Grids.LocateContains | src/grid.cpp:345-351 | a point of the half-open area maps to an existing cell whose coordinates are the truncated quotients and which contains the point |
| Grids.FarEastEdge | src/grid.cpp:345-351 | a point with x == width names the first cell of the next row up, which does not contain it, or an index equal to the size |
| Grids.FarNorthEdge | src/grid.cpp:345-351 | a point with y == height names an index past the last cell |
| Grids.DeltaUpdateAsWrittenEmptiesVector | src/grid.cpp:305-315 | after clear() and the transform the delta vector reports size 0, although the buffer holds the differences |
| Grids.Grid.constructor | src/grid.cpp:18-55 | the grid has the given dimensions, a zero maximum, all arrays zero, and one fresh EMPTY/INACTIVE cell per index, placed and wired |
| Grids.Grid.Make | src/grid.cpp:18-55 | range error exactly when the area is not positive or there are no columns or rows; otherwise a new valid grid of those dimensions whose seven arrays and maximum velocity are zero and whose cells are new, EMPTY, INACTIVE, without guests, on their bounds and with their neighbours |
| Grids.Grid.InitGrids | src/grid.cpp:140-206 | one new cell per index in row order, each aliasing its slots, on its bounds, with its neighbours |
| Grids.Grid.NewCell | src/grid.cpp:164-195 | the cell built for (x, y) has index toIndex(x, y), its bounds and its neighbours, and starts EMPTY and INACTIVE |
| Grids.Grid.CellsAliasArrays | src/grid.cpp:172-178 | cell i's seven getters read slot i of the grid's seven arrays |
| Grids.Grid.CellAt | src/grid.cpp:339-342 | the cell returned for an index has that index, its bounds and its neighbours |
| Grids.Grid.CellAtCoordinates | src/grid.cpp:354-357 | the returned cell is number toIndex(x, y), at coordinates (x, y) when x is a column |
| Grids.Grid.CellAtPoint | src/grid.cpp:345-351 | the returned cell is the located one, and inside the half-open area it contains the point |
| Grids.Grid.Sample | src/grid.cpp:229-240 | zero outside the closed area; inside the half-open area, a successful sample by the cell under the point |
| Grids.Grid.SampleFarNorthEdge | src/grid.cpp:229-240 | a point on the far north edge passes the boundary check but reaches past the last cell |
| Grids.Grid.SampleFarEastEdge | src/grid.cpp:229-240 | a point on the far east edge passes the boundary check but is not sampled |
| Grids.Grid.CentreSample | src/grid.cpp:243-248 | the velocity at a cell's centre is the mean of its own and its east neighbour's U, and of its own and its north neighbour's V |
| Grids.Grid.MaxSquaredSpeed | src/grid.cpp:281-300 | the result is at least every cell's squared speed, is attained by some cell, and is non-negative |
| Grids.Grid.MaxVelocityUpdate | src/grid.cpp:281-300 | the recorded value is the maximum squared speed over all cells |
| Grids.Grid.DeltaVelocityUpdate | src/grid.cpp:305-315 | every delta slot becomes current minus initial velocity; the other arrays are unchanged |
| Grids.Grid.ResetInitialVelocity | src/grid.cpp:319-323 | both initial-velocity arrays become zero; the other arrays are unchanged |
| Grids.Grid.Pressure | src/grid.cpp:333-336 | writes only the pressure slot of that index, which the cell then reads back |
| Grids.Grid.Column | src/grid.cpp:361-373 | out_of_range exactly when the index is not a column; otherwise the nRows cells of that column, bottom to top |
| Grids.Grid.Row | src/grid.cpp:377-389 | out_of_range exactly when the index is not a row; otherwise the nColumns cells of that row, west to east |

Notes on members without their own contract:

- `Cells.Cell.Velocity`, `Cells.Cell.DeltaVelocity`, `Grids.Grid.Velocity`, `Grids.Grid.DeltaVelocity`, `Grids.Grid.VelocityAtCell` and `Grids.Grid.DeltaVelocityAtCell` apply the samplers above to the current-velocity or delta-velocity arrays.
- `Cells.Cell.Divergence` is `divergence()` (src/cell.cpp:233-242): the forward differences of U and V over the cell. `Cells.Cell.DivergenceIsNetFaceFlux` states what it computes.
- `Grids.Dimensions.ToIndex` and `Grids.Dimensions.ToCartesian` are `toIndex` (src/grid.cpp:209-212) and `toCartesian` (src/grid.cpp:216-224). They count by whole rows: `ToIndex` adds `x` to the first index of row `y`, and `ToCartesian` subtracts one row at a time. `Grids.ToIndexIsRowMajor` and `Grids.ToCartesianIsDivMod` prove them equal to the source's `y * nColumns + x` and to `%` and `/`.
- `Grids.Dimensions.Locate` is the index that `cell(point)` computes (src/grid.cpp:345-350): `toIndex` of the two quotients, truncated. `Grids.LocateContains` states what it means.
- The raw getters model include/cell.h:45-61 and src/cell.cpp:161-189, 244-247:
  - `label`, `status`, `index`, the bounds, the sizes, the centre and the half-edges are fields of the cell;
  - the velocity and pressure getters are `VelocityU` through `Pressure`, which read the cell's slot.

## Left out

- Floating-point behaviour: rounding, NaN, and the float accumulation of the cell centres (src/grid.cpp:42-52). The grid points are the exact products `k * delta`.
- `density` (src/cell.cpp:155-159, src/grid.cpp:326-330): a float division that divides by zero for the default pool size of 0.
- Grids.Grid.MaxVelocityUpdate: records the square of the maximum speed rather than its square root, because the model has no square root on reals.
- `velocityDivergence(x, y)` (src/grid.cpp:273-277): a direct call of the cell's divergence, which Cells.Cell.DivergenceIsNetFaceFlux covers.
- The default constructors `Cell()` (src/cell.cpp:4-42) and `Grid()` (src/grid.cpp:12-15): `Cell()` makes an EMPTY, INACTIVE cell with index `UINT_MAX`, zero bounds and null pointers, and leaves only the particle count uninitialised; `Grid()` makes a grid with no cells. The model builds every cell and grid with the constructors that take arguments.
- The grid's copy constructor and `operator=` (src/grid.cpp:58-133): they repeat the construction, and the model builds each grid once.
- `initNeighbourIndexList` (include/cell.h:96, called at src/grid.cpp:199-204): declared but never defined.
- `neighbours()` (include/cell.h:62): returns `m_neighbourIndexList`, which only the undefined `initNeighbourIndexList` would fill.
- `Particle::notify` and the `Observer` interface (include/observer.h): the model calls `OnNotify` directly with the particle and the event.
- The particle's position, velocity and other data (include/particle.h).
- Grids.Grid.CellAtPoint: requires a point with non-negative coordinates, and so does `Grids.Dimensions.Locate`. The source truncates the quotients toward zero (src/grid.cpp:347-348), so a coordinate in (-delta, 0) also gives column or row 0. No caller in the core passes such a point: `velocity` and `deltaVelocity` return zero for points outside the area first (src/grid.cpp:232-235, 254-257).
- Cells.Cell.IncrementParticleCount: does not model the wrap-around of `size_t` at 2^64, because counts are unbounded naturals.
- Indices and sizes are unbounded naturals, so the product `nColumns * nRows` never overflows.
- The simulator, the solver, the viewer, the main window and the program entry point: none of them are part of this model.

## Findings

| source | as written | input that shows it | evidently intended | confidence | as-written member | corrected member |
|---|---|---|---|---|---|---|
| src/grid.cpp:180-187 | the north and east guards compare the one-based row and column with the float height and width of the area | a 5 x 5 area in 15 x 15 cells: cells in columns 4 to 13 get no east neighbour and cells in rows 4 to 13 no north neighbour; a 20 x 20 area in 5 x 5 cells: `at()` throws out_of_range | compare with the numbers of rows and columns | not executed | Grids.WiringAsWrittenAgreesIff | Grids.WiringAdjacency |
| src/grid.cpp:307-313 | `clear()` empties the delta vector, then `transform` writes through `begin()` of the empty vector | any grid: afterwards the delta vectors report size 0 | overwrite the existing elements in place | not executed | Grids.DeltaUpdateAsWrittenEmptiesVector | Grids.Grid.DeltaVelocityUpdate |
| src/cell.cpp:208 | the north term of the V component is weighted by alphaU (same at line 228) | the point (minU, maxV) of any square cell: the V component is 0 instead of the north sample; on a grid cell that is not square, whose deltaV the copy replaced by deltaU, it is (1 - deltaV/deltaU) * v, not the north sample either | weight by alphaV | not executed | Cells.InterpolateAsWrittenMissesNorthFace, Cells.InterpolateAsWrittenCopiedCell | Cells.Interpolate |
| src/cell.cpp:97 | the copy constructor takes deltaV from the other cell's deltaU (same in `operator=` at line 131, which stores every grid cell at src/grid.cpp:195) | any cell that is not square | copy deltaV | not executed | Cells.CopyAsWrittenBreaksGeometry | Cells.GeometryLayout |
| src/particle.cpp:21-26 | after `erase(it)` the loop increments the invalidated iterator (same in src/cell.cpp:330-334) | `[x]`: it is incremented past the end; `[x, x, y]`: one `x` stays | continue from the iterator that `erase` returns | not executed | Particles.EraseAsWrittenCounterexamples | Particles.EraseAll |
