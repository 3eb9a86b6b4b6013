# Marching squares, frame-rate meter and firework: a Dafny model

This project models the computational core of a collection of p5.js
sketches:

- **The marching-squares surface** (`Surface` and `Cell` in
  `marching-squares/surface.ts`). A scalar field is sampled on a grid of
  points. Each cell between four points gets a 4-bit key from its corners'
  classification against the threshold. Two 16-entry tables turn the key
  into contour segments and into the polygon covering the part above the
  threshold. Each table is evaluated with a midpoint or a linear
  interpolator and mapped into world coordinates with `lerp`.
- **The sample point** (`Point` in `metaball/point.ts`). It holds a
  position, a value that every update overwrites, and a threshold.
- **The frame-rate meter** (`FrameRateDisplay`). It keeps a window of the
  last `maxSamples` frame-rate samples and reports their average.
- **The firework** (`Firework`, `Walker` and `range` in the 2024-10-31
  sketch). Walkers fan out from a point. Every 40th step, up to the 160th,
  each walker is replaced by 8 new ones.

The files:

| file | module | contents |
|---|---|---|
| `common.dfy` | `Common` | `Option`, 2-D vectors, `Math.max`, p5's `lerp` |
| `point.dfy` | `MetaballPoint` | class `Point`, its binary shading and label highlight |
| `cell.dfy` | `MarchingCell` | key, interpolators, both tables, evaluation, world mapping, the `Cell` getters |
| `surface.dfy` | `MarchingSurface` | class `Surface`: grid sizes, point grid, cell array, update loops, contour and inside geometry |
| `frame_rate_display.dfy` | `FrameRate` | class `FrameRateDisplay` |
| `firework.dfy` | `Fireworks` | `range`, classes `Walker` and `Firework` |

Classes keep the source's mutable state in mutable fields. Their methods
are proved against value-level functions:

- `Surface.Update` is stated in terms of the sampler and `CellAt`.
- `FrameRateDisplay.Update` is stated in terms of `Pushed`, and its class
  invariant in terms of `Feed`.
- `Firework.Move` is stated in terms of `Advance` and `Disperse`.

The properties the source relies on are proved about those functions.

The tables are written symbolically. A coordinate is either a constant
or `Cross(a, b)`, meaning "the interpolator applied to corners a and b".
This makes two facts provable entry by entry:

- Every interpolated coordinate is on an edge whose corners classify
  differently. The linear interpolator's divisor is therefore never zero,
  and its ratio lies in [0, 1].
- Every contour endpoint is a vertex of the inside polygon.

## Model

| member | source | states |
|---|---|---|
| Common.Max | src/pages/sketches/marching-squares/surface.ts:33 | the longer side is at least each side and equals one of them |
| Common.Lerp | src/pages/sketches/marching-squares/surface.ts:266-269 | lerp gives start at amount 0 and stop at amount 1 |
| Common.LerpBetween | src/pages/sketches/marching-squares/surface.ts:266-269 | an amount in [0, 1] lands between start and stop |
| MetaballPoint.Point.constructor | src/pages/sketches/metaball/point.ts:9-14 | pos, value and threshold are stored as given |
| MetaballPoint.Point.SetValue | src/pages/sketches/metaball/point.ts:16-18 | value becomes the argument; pos and threshold are unchanged |
| MetaballPoint.Point.BinaryGrey | src/pages/sketches/metaball/point.ts:24-25 | white exactly when value > threshold, black otherwise (equality is black) |
| MetaballPoint.Point.ValueLabelFill | src/pages/sketches/metaball/point.ts:36-39 | the label is highlighted exactly when value > threshold |
| MarchingCell.Corners.AsSeq | src/pages/sketches/marching-squares/surface.ts:212-224 | the values tuple lists the corners in order TL, TR, BR, BL |
| MarchingCell.KeyOf | src/pages/sketches/marching-squares/surface.ts:254-260 | the key is below 16, and corner c's digit is set exactly when its value is strictly above the threshold |
| MarchingCell.KeyFromBits | src/pages/sketches/marching-squares/surface.ts:254-260 | two keys below 16 with the same four digits are equal |
| MarchingCell.KeyDependsOnClassificationOnly | src/pages/sketches/marching-squares/surface.ts:254-260 | corner values that classify the same way give the same key |
| MarchingCell.ComplementKey | src/pages/sketches/marching-squares/surface.ts:254-260 | flipping every corner's classification turns key k into 15 - k |
| MarchingCell.ParseBinary | src/pages/sketches/marching-squares/surface.ts:259 | Number.parseInt(s, 2) as a fold over the digits, on non-empty digit strings (the key getter always builds four digits); n binary digits parse to a number below 2^n |
| MarchingCell.ParseFourDigits | src/pages/sketches/marching-squares/surface.ts:259 | parseInt(s, 2) of four binary digits is 8·d0 + 4·d1 + 2·d2 + d3 |
| MarchingCell.ComputeKey | src/pages/sketches/marching-squares/surface.ts:254-260 | the string-building loop followed by parseInt yields exactly KeyOf |
| MarchingCell.Interpolate | src/pages/sketches/marching-squares/surface.ts:227-236 | the regular interpolator gives 0.5; the linear ratio t satisfies va + t·(vb − va) = threshold |
| MarchingCell.CrossingRatioInUnit | src/pages/sketches/marching-squares/surface.ts:234-236 | on an edge whose corners classify differently, the divisor is nonzero and the ratio is in [0, 1] |
| MarchingCell.AreaTable | src/pages/sketches/marching-squares/surface.ts:286-407 | the polygon table itself; no entry has more than 6 vertices, and a key outside 0..15 falls to the default empty entry; its entry-by-entry properties are the AreaTable lemmas below |
| MarchingCell.AreaTableVertices | src/pages/sketches/marching-squares/surface.ts:286-407 | every polygon vertex is a cell corner or the crossing on a crossed edge |
| MarchingCell.AreaTableCorners | src/pages/sketches/marching-squares/surface.ts:286-407 | a corner is in key k's polygon exactly when its digit is set |
| MarchingCell.AreaTableCrossings | src/pages/sketches/marching-squares/surface.ts:286-407 | the polygon passes through an edge's crossing exactly when that edge is crossed |
| MarchingCell.AreaTableSizes | src/pages/sketches/marching-squares/surface.ts:286-407 | vertex count = corners above threshold + crossed edges |
| MarchingCell.AreaTableSizesByKey | src/pages/sketches/marching-squares/surface.ts:286-407 | vertex counts per key: 0, 3, 4, 5 or 6 |
| MarchingCell.AreaTableDistinct | src/pages/sketches/marching-squares/surface.ts:286-407 | no polygon repeats a vertex |
| MarchingCell.AreaTableExtremes | src/pages/sketches/marching-squares/surface.ts:292-404 | key 0 has no polygon; key 15 has the whole square, corners in order |
| MarchingCell.LineTable | src/pages/sketches/marching-squares/surface.ts:410-493 | the contour table itself; no entry has more than 2 segments, and a key outside 0..15 falls to the default empty entry; its entry-by-entry properties are the LineTable lemmas below |
| MarchingCell.LineTableEndpoints | src/pages/sketches/marching-squares/surface.ts:410-493 | every contour endpoint is the crossing on a crossed edge |
| MarchingCell.LineTableCrossings | src/pages/sketches/marching-squares/surface.ts:410-493 | the contour touches an edge exactly when the edge is crossed |
| MarchingCell.LineTableEndpointCount | src/pages/sketches/marching-squares/surface.ts:410-493 | twice the segment count equals the number of crossed edges |
| MarchingCell.LineTableEndpointsDistinct | src/pages/sketches/marching-squares/surface.ts:410-493 | no two endpoints of a key's contour coincide |
| MarchingCell.LineTableSizes | src/pages/sketches/marching-squares/surface.ts:410-493 | no segment for keys 0 and 15, two for saddles 5 and 10, one otherwise |
| MarchingCell.LineTableSymmetry | src/pages/sketches/marching-squares/surface.ts:410-493 | keys k and 15 − k share their contour, except saddles 5 and 10 |
| MarchingCell.ContourOnPolygon | src/pages/sketches/marching-squares/surface.ts:286-493 | every contour endpoint is a vertex of the same key's polygon |
| MarchingCell.CrossingOnEdge | src/pages/sketches/marching-squares/surface.ts:262-272 | a crossing vertex is the lerp of its edge's corners at a ratio in [0, 1]; in linear mode the corner values interpolated there equal the threshold |
| MarchingCell.UnitCornerPoint | src/pages/sketches/marching-squares/surface.ts:286-407 | a corner entry of the polygon table, such as createVector(0, 1), evaluates to that corner's unit-square position under either interpolator |
| MarchingCell.EvalTableVertex | src/pages/sketches/marching-squares/surface.ts:286-493 | a table vertex evaluates inside the unit square; with the regular interpolator it lands on a corner or an edge midpoint, and a crossing vertex on an edge midpoint |
| MarchingCell.AreaVertexRatios | src/pages/sketches/marching-squares/surface.ts:286-407 | one ratio vector per table vertex, all in the unit square, each a corner or an edge midpoint when regular |
| MarchingCell.LineRatios | src/pages/sketches/marching-squares/surface.ts:410-493 | one ratio pair per table segment, all in the unit square, every endpoint an edge midpoint when regular |
| MarchingCell.ToWorld | src/pages/sketches/marching-squares/surface.ts:266-269 | ratios 0, ½, 1 map to the cell's edges and centre line; unit ratios stay inside the cell |
| MarchingCell.LineCoords | src/pages/sketches/marching-squares/surface.ts:262-272 | one world segment per table segment, inside an upright cell; with the regular interpolator every endpoint is the midpoint of one of the cell's edges |
| MarchingCell.VertexCoords | src/pages/sketches/marching-squares/surface.ts:274-283 | one world vertex per table vertex, inside an upright cell; with the regular interpolator each is a corner or an edge midpoint of the cell (never its centre) |
| MarchingCell.RegularGeometryIgnoresMagnitudes | src/pages/sketches/marching-squares/surface.ts:226-245 | with the regular interpolator, two cells at the same place with the same key get the same geometry |
| MarchingCell.Cell.Key | src/pages/sketches/marching-squares/surface.ts:254-260 | the key is below 16; a digit is set exactly when that corner point's value exceeds the top-left point's threshold |
| MarchingCell.Cell.RegularLineCoords | src/pages/sketches/marching-squares/surface.ts:226-231 | as many segments as the key's table holds, every endpoint the midpoint of one of the cell's edges, inside an upright cell |
| MarchingCell.Cell.InterpolatedLineCoords | src/pages/sketches/marching-squares/surface.ts:233-238 | as many segments as the key's table holds, inside the cell |
| MarchingCell.Cell.RegularVertexCoords | src/pages/sketches/marching-squares/surface.ts:240-245 | as many vertices as the key's table holds, each a corner or an edge midpoint of the cell (never its centre), inside an upright cell |
| MarchingCell.Cell.InterpolatedVertexCoords | src/pages/sketches/marching-squares/surface.ts:247-252 | as many vertices as the key's table holds, inside the cell |
| MarchingSurface.CellCount | src/pages/sketches/marching-squares/surface.ts:35-36 | Math.floor(side / cellSize) + 1 cells along a side; a side of length 0 or more gets at least one |
| MarchingSurface.CellCountCovers | src/pages/sketches/marching-squares/surface.ts:34-36 | the cells reach past the side and the last one starts at or before its end |
| MarchingSurface.LongerSideCellCount | src/pages/sketches/marching-squares/surface.ts:33-36 | the longer side gets floor(resolution) + 1 cells |
| MarchingSurface.CellIndex | src/pages/sketches/marching-squares/surface.ts:172 | i·nCellsY + j lies in [0, nCellsX·nCellsY) |
| MarchingSurface.CellIndexInjective | src/pages/sketches/marching-squares/surface.ts:162-175 | different cells are stored at different indices |
| MarchingSurface.CellIndexOnto | src/pages/sketches/marching-squares/surface.ts:162-175 | every array index is the index of some cell (i, j) |
| MarchingSurface.GridCellPlacement | src/pages/sketches/marching-squares/surface.ts:162-171 | a cell on grid points (i, j), (i+1, j), (i, j+1) is upright and lies within the grid |
| MarchingSurface.Surface.constructor | src/pages/sketches/marching-squares/surface.ts:20-39 | threshold defaults to 0.5; cellSize, nCellsX and nCellsY as computed from the sizes; every value 0; no cells yet |
| MarchingSurface.Surface.SetResolution | src/pages/sketches/marching-squares/surface.ts:41-48 | sizes recomputed for the new resolution; threshold kept; a fresh grid of zero values; no cells |
| MarchingSurface.Surface.SetThreshold | src/pages/sketches/marching-squares/surface.ts:50-54 | the new threshold; sizes kept; a fresh grid of zero values; no cells |
| MarchingSurface.Surface.Reset | src/pages/sketches/marching-squares/surface.ts:37-38 | a fresh grid for the current sizes, every value 0, and an empty cell array of nCellsX·nCellsY slots |
| MarchingSurface.Surface.Update | src/pages/sketches/marching-squares/surface.ts:56-59 | every point's value is the updater's result on its old state and indices, and every slot holds the cell its index stands for |
| MarchingSurface.Surface.InitPoints | src/pages/sketches/marching-squares/surface.ts:135-149 | (nCellsX+1)×(nCellsY+1) fresh, distinct points; point (i, j) at (i·cellSize, j·cellSize) with value 0 and the threshold |
| MarchingSurface.Surface.UpdatePoints | src/pages/sketches/marching-squares/surface.ts:151-160 | value(i, j) = updater(old point (i, j), i, j) for every point |
| MarchingSurface.Surface.UpdateCells | src/pages/sketches/marching-squares/surface.ts:162-175 | the slot at i·nCellsY + j holds the cell with corners (i, j), (i+1, j), (i+1, j+1), (i, j+1), and every slot is filled |
| MarchingSurface.Surface.CellAt | src/pages/sketches/marching-squares/surface.ts:165-171 | the cell built for (i, j): corners (i, j), (i+1, j), (i+1, j+1), (i, j+1) as TL, TR, BR, BL; CellAtPlacement states where it lies |
| MarchingSurface.Surface.CellAtPlacement | src/pages/sketches/marching-squares/surface.ts:165-171 | cell (i, j) is made of the surface's points, is upright, and lies within the grid |
| MarchingSurface.Surface.CellAtGeometry | src/pages/sketches/marching-squares/surface.ts:165-171 | cell (i, j) is upright and whatever it contains is on the grid |
| MarchingSurface.Surface.StoredCell | src/pages/sketches/marching-squares/surface.ts:172 | a filled slot k holds the cell (k div nCellsY, k mod nCellsY) |
| MarchingSurface.Surface.SlotLines | src/pages/sketches/marching-squares/surface.ts:103-106 | the segments drawn for the cell in slot m: as many as its key's table holds, all on the grid |
| MarchingSurface.Surface.SlotPolygon | src/pages/sketches/marching-squares/surface.ts:118-121 | the polygon filled for the cell in slot m: as many vertices as its key's table holds, all on the grid |
| MarchingSurface.Surface.Contour | src/pages/sketches/marching-squares/surface.ts:102-115 | interpolate defaults to false; exactly when every cell is built, one group of segments per slot in slot order, group m being slot m's cell's lines, all on the grid |
| MarchingSurface.Surface.Inside | src/pages/sketches/marching-squares/surface.ts:117-133 | interpolate defaults to false; exactly when every cell is built, nCellsX·nCellsY polygons in slot order, polygon m being slot m's cell's vertices, all on the grid |
| MarchingSurface.Surface.DrawnGeometryOfCell | src/pages/sketches/marching-squares/surface.ts:102-133 | after an update, what is drawn at slot i·nCellsY + j is exactly cell (i, j)'s line and vertex coordinates |
| MarchingSurface.Surface.KeyAgreesWithPointShading | src/pages/sketches/metaball/point.ts:24-39 | a cell key's digit is set exactly when drawPoints(true) strokes that corner white and drawPointValues highlights it |
| FrameRate.Pushed | src/shapes/frame-rate-display/frame-rate-display.ts:15-21 | push then shift-if-over on a window; PushedKeepsNewest and PushedBounded state its effect |
| FrameRate.PushedKeepsNewest | src/shapes/frame-rate-display/frame-rate-display.ts:15-21 | the sample becomes the last element; the oldest is dropped exactly when the window was full |
| FrameRate.PushedBounded | src/shapes/frame-rate-display/frame-rate-display.ts:15-22 | a window within the bound stays within it and grows by one until full |
| FrameRate.FeedKeepsLastSamples | src/shapes/frame-rate-display/frame-rate-display.ts:7-22 | from empty, after n updates the window is the last min(n, maxSamples) samples in arrival order |
| FrameRate.FeedBounded | src/shapes/frame-rate-display/frame-rate-display.ts:15-22 | every window reached from empty is within maxSamples |
| FrameRate.Sum | src/shapes/frame-rate-display/frame-rate-display.ts:36 | reduce((acc, val) => acc + val, 0) as a left fold; SumBetween bounds it |
| FrameRate.SumBetween | src/shapes/frame-rate-display/frame-rate-display.ts:36 | samples within [lo, hi] sum to within [n·lo, n·hi] |
| FrameRate.FrameRateDisplay.constructor | src/shapes/frame-rate-display/frame-rate-display.ts:7-13 | pos and maxSamples as given, maxSamples defaulting to 60; empty window |
| FrameRate.FrameRateDisplay.Update | src/shapes/frame-rate-display/frame-rate-display.ts:15-22 | push then drop-oldest-if-over; the window stays within maxSamples and equals the tail of the history |
| FrameRate.FrameRateDisplay.WindowIsRecentHistory | src/shapes/frame-rate-display/frame-rate-display.ts:15-22 | the window is the last min(n, maxSamples) of all samples recorded |
| FrameRate.FrameRateDisplay.AverageFrameRate | src/shapes/frame-rate-display/frame-rate-display.ts:35-38 | no average for an empty window; otherwise average × length = sum |
| FrameRate.FrameRateDisplay.AverageBetween | src/shapes/frame-rate-display/frame-rate-display.ts:35-38 | the average lies between any lower and upper bound of the samples |
| Fireworks.Range | src/pages/sketches/2024-10-31/sketch.ts:115-117 | range(n) is [0, 1, …, n − 1] |
| Fireworks.Fan | src/pages/sketches/2024-10-31/sketch.ts:73-81 | the states dispersion(start) creates: one walker per angle index 0..7, each at start |
| Fireworks.Disperse | src/pages/sketches/2024-10-31/sketch.ts:60-63 | walkers.flatMap(w => dispersion(w.position)); DisperseLength and DisperseShape state its shape |
| Fireworks.Advance | src/pages/sketches/2024-10-31/sketch.ts:52-54 | every walker, in order, moved by the step of its direction, nothing else changed |
| Fireworks.DisperseLength | src/pages/sketches/2024-10-31/sketch.ts:60-63 | a dispersion multiplies the walker count by 8 |
| Fireworks.DisperseShape | src/pages/sketches/2024-10-31/sketch.ts:60-63 | child 8·i + a starts at parent i's position with angle index a |
| Fireworks.DisperseAppend | src/pages/sketches/2024-10-31/sketch.ts:60-62 | flatMap distributes over concatenation |
| Fireworks.WalkerCountStep | src/pages/sketches/2024-10-31/sketch.ts:56-63 | one move multiplies the count by 8 exactly on a dispersing step, and keeps it otherwise |
| Fireworks.WalkerCountBounded | src/pages/sketches/2024-10-31/sketch.ts:41-43 | the count is between 8 and 8⁵ = 32768 |
| Fireworks.Walker.constructor | src/pages/sketches/2024-10-31/sketch.ts:91-97 | the walker starts at the centre, with the given angle index and that direction's step vector |
| Fireworks.Walker.Move | src/pages/sketches/2024-10-31/sketch.ts:99-106 | the position advances by the step vector; nothing else changes |
| Fireworks.Firework.constructor | src/pages/sketches/2024-10-31/sketch.ts:37-48 | progress 0 and 8 fresh walkers at the centre, one per angle index 0..7 |
| Fireworks.Firework.Dispersion | src/pages/sketches/2024-10-31/sketch.ts:73-81 | 8 fresh, distinct walkers at the start position, walker i with angle index i |
| Fireworks.Firework.Move | src/pages/sketches/2024-10-31/sketch.ts:50-65 | progress + 1; every walker moves once; on a dispersing step they are replaced by the dispersion of the moved walkers; the count invariant holds |
| Fireworks.Firework.MoveWalkers | src/pages/sketches/2024-10-31/sketch.ts:52-54 | every walker moves exactly once |
| Fireworks.Firework.DispersedWalkers | src/pages/sketches/2024-10-31/sketch.ts:60-63 | fresh, distinct walkers whose states are the flatMap of a fan over each current walker's position |
| Fireworks.Firework.WalkersBounded | src/pages/sketches/2024-10-31/sketch.ts:41-43 | a firework never holds more than 32768 walkers |

## Left out

- Rendering is not modelled. This covers every p5 drawing call:
  - `drawPoints`, `drawPointValues`, `drawCellKeys`, `drawGridLine`;
  - the stroke, fill and vertex calls of `drawContour` and `drawInside`;
  - `Point.draw` in its non-binary (value-mapped grey) mode, and the label text;
  - `FrameRateDisplay.display`;
  - `Firework.display` and `Walker.display`.

  What is modelled is the geometry and shading those calls receive: `Contour`, `Inside`, `BinaryGrey` and `ValueLabelFill`.
- The p5 instance is not modelled. The `p` field and `createVector` become plain values, and `lerp` becomes real arithmetic.
- The samplers are not modelled: the Perlin-noise and metaball samplers are foreign floating-point code. `Update` takes an arbitrary function of the point's state and its indices instead.
- The floating-point physics (balls, blobs), the trigonometric shapes, the waves and noise-walker sketches, and the resolution auto-tuning sketch are not part of this model.
- JavaScript numbers are modelled as unbounded reals. Rounding, NaN and Infinity are not captured.
- MarchingSurface.Surface.constructor: requires a positive resolution, a positive longer side, and width and height of at least 0. With a zero resolution or a zero longer side the source divides by zero and gets Infinity or NaN sizes, which reals cannot express. A negative resolution gives a negative cellSize and a degenerate grid (for example no points but a cell array with holes). A negative side gives a cell count of 0 or less: when the product nCellsX·nCellsY is negative, `new Array` throws a RangeError; when a count is 0, the surface has no cells and draws nothing. The model captures none of these. No caller passes them: both construct a surface with the canvas size, and the resolution is positive.
- MarchingSurface.Surface.SetResolution: requires a positive resolution. Zero divides by zero, as in the constructor, and a negative resolution gives a negative cellSize and a degenerate grid; the model captures neither. No caller passes them: the resolution comes from a slider bounded to 4..120 or from an auto-tuner that keeps it at 40 or more.
- MarchingCell.ParseBinary: the empty string parses to 0, where `Number.parseInt("", 2)` is NaN. The key getter always builds four digits, so no call reaches that case.
- MarchingCell.Interpolate: the linear ratio is only defined where the two values differ. The tables only interpolate on edges whose corners classify differently, so that never excludes a call the tables make.
- MarchingSurface.Surface.Update: the updater receives a snapshot of the point (position, value, threshold) rather than the live object. The source reads the point before writing it, so the value is the same.
- MarchingSurface.Surface.Contour: where the source would throw a TypeError on an empty cell slot (drawing before the first update), the model gives `None`. It does not model the cells drawn before the throw. The segments are grouped by cell; flattening the groups gives the order in which the source draws them.
- MarchingSurface.Surface.Inside: the same as Contour for empty cell slots.
- FrameRate.FrameRateDisplay.AverageFrameRate: on an empty window the source returns NaN (0 / 0). The model gives `None`.
- FrameRate.FrameRateDisplay.constructor: maxSamples is a natural number; a negative or fractional maxSamples is not modelled.
- Fireworks.Walker.Move: the step vector (cos(angle)·step, sin(angle)·step) is trigonometry. Each walker gets it from its firework's per-angle-index vector; its value is not modelled.
- Fireworks.Firework.constructor: takes that per-angle-index step vector as a parameter, which the source computes with cos and sin.
- `Point.pos`, `Point.threshold`, `FrameRateDisplay.pos`, `FrameRateDisplay.maxSamples` and the walkers' start, angle and step vector are `const`. No code writes them after construction, so "setValue/update change nothing else" holds by construction.
- `Firework`'s angleDiv (8), step (4), dispersionTime (40) and dispersionCount (4) are instance fields the source sets to fixed values and never changes. They are the module constants `AngleDiv`, `DispersionTime` and `DispersionCount`; the step length enters only through the step vectors, so the walker keeps no separate `step` field.
- The surface's `cells` is an array of `Option<Cell>`: `None` models a hole of `new Array(n)`.
- `Cell` is an immutable record of four point references. Its key and geometry are recomputed from the points' current values, as in the source.
