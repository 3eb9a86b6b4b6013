/** The scalar-field surface of the marching-squares sketch: a grid of
    (nCellsX + 1) x (nCellsY + 1) points over a width x height area, and a
    flat array of the nCellsX * nCellsY cells between them. Changing the
    resolution or the threshold rebuilds everything from scratch; an
    update resamples every point and rebuilds every cell. */
module MarchingSurface {
  import opened Common
  import opened MetaballPoint
  import opened MarchingCell

  // ---------------------------------------------------------------------
  // Grid arithmetic

  /** The number of cells along a side: Math.floor(side / cellSize) + 1. */
  function CellCount(side: real, cellSize: real): (c: int)
    requires cellSize > 0.0
    ensures side >= 0.0 ==> c >= 1
  {
    (side / cellSize).Floor + 1
  }

  /** The cells along a side reach past it, and the last one starts no
      further than the side's end: the grid covers the whole area with
      less than one cell to spare. */
  lemma {:induction false} CellCountCovers(side: real, cellSize: real)
    requires side >= 0.0 && cellSize > 0.0
    ensures (CellCount(side, cellSize) - 1) as real * cellSize <= side
    ensures side < CellCount(side, cellSize) as real * cellSize
  {
    var q := side / cellSize;
    var c := CellCount(side, cellSize);
    var x := c as real;
    var y := (c - 1) as real;
    assert x == q.Floor as real + 1.0 && y == q.Floor as real;
    assert q * cellSize == side;
    assert y <= q < x;
    assert (x - q) * cellSize > 0.0;
    assert x * cellSize - q * cellSize > 0.0;
    assert side < x * cellSize;
    assert (q - y) * cellSize >= 0.0;
    assert q * cellSize - y * cellSize >= 0.0;
  }

  /** With cellSize = longerSide / resolution, the longer side gets
      floor(resolution) + 1 cells. */
  lemma LongerSideCellCount(longerSide: real, resolution: real)
    requires longerSide > 0.0 && resolution > 0.0
    ensures CellCount(longerSide, longerSide / resolution) == resolution.Floor + 1
  {
    var cellSize := longerSide / resolution;
    assert cellSize * resolution == longerSide;
    assert longerSide / cellSize == resolution;
  }

  /** Cell (i, j) is stored at index i * nCellsY + j of the cell array. */
  function CellIndex(i: int, j: int, nCellsX: int, nCellsY: int): (k: int)
    requires 0 <= i < nCellsX && 0 <= j < nCellsY
    ensures 0 <= k < nCellsX * nCellsY
  {
    assert (nCellsX - (i + 1)) * nCellsY >= 0;
    i * nCellsY + j
  }

  lemma PositiveMultiple(m: int, d: int)
    requires d > 0 && m > 0
    ensures m * d >= d
  {
    assert (m - 1) * d >= 0;
  }

  /** Different cells are stored at different indices. */
  lemma CellIndexInjective(i: int, j: int, i': int, j': int, nCellsX: int, nCellsY: int)
    requires 0 <= i < nCellsX && 0 <= j < nCellsY
    requires 0 <= i' < nCellsX && 0 <= j' < nCellsY
    requires CellIndex(i, j, nCellsX, nCellsY) == CellIndex(i', j', nCellsX, nCellsY)
    ensures i == i' && j == j'
  {
    if i < i' {
      PositiveMultiple(i' - i, nCellsY);
      assert false;
    } else if i' < i {
      PositiveMultiple(i - i', nCellsY);
      assert false;
    }
  }

  lemma CellIndexElsewhere(i: int, j: int, nCellsX: int, nCellsY: int)
    requires 0 <= i < nCellsX && 0 <= j < nCellsY
    ensures forall a, b | 0 <= a < nCellsX && 0 <= b < nCellsY && (a != i || b != j) ::
      CellIndex(a, b, nCellsX, nCellsY) != CellIndex(i, j, nCellsX, nCellsY)
  {
    forall a, b | 0 <= a < nCellsX && 0 <= b < nCellsY && (a != i || b != j)
      ensures CellIndex(a, b, nCellsX, nCellsY) != CellIndex(i, j, nCellsX, nCellsY)
    {
      if CellIndex(a, b, nCellsX, nCellsY) == CellIndex(i, j, nCellsX, nCellsY) {
        CellIndexInjective(a, b, i, j, nCellsX, nCellsY);
      }
    }
  }

  /** Every index of the cell array is the index of a cell. */
  lemma CellIndexOnto(k: int, nCellsX: int, nCellsY: int)
    requires nCellsY > 0 && 0 <= k < nCellsX * nCellsY
    ensures 0 <= k / nCellsY < nCellsX && 0 <= k % nCellsY < nCellsY
    ensures CellIndex(k / nCellsY, k % nCellsY, nCellsX, nCellsY) == k
  {
  }

  /** Grid lines i and i + 1 of n lie in order on [0, n * cellSize]. */
  lemma ScaledStep(i: int, n: int, cellSize: real)
    requires 0 <= i < n && cellSize > 0.0
    ensures 0.0 <= i as real * cellSize <= (i + 1) as real * cellSize <= n as real * cellSize
  {
    assert (i + 1) as real * cellSize == i as real * cellSize + cellSize;
    assert (n - (i + 1)) as real * cellSize >= 0.0;
    assert n as real * cellSize == (n - (i + 1)) as real * cellSize + (i + 1) as real * cellSize;
  }

  /** A cell whose corners sit on grid points (i, j), (i + 1, j) and
      (i, j + 1) is upright and lies on the n x n' grid. */
  lemma GridCellPlacement(st: CellState, i: int, j: int, nCellsX: int, nCellsY: int, cellSize: real)
    requires 0 <= i < nCellsX && 0 <= j < nCellsY && cellSize > 0.0
    requires st.tl.pos == GridPos(i, j, cellSize) && st.tr.pos == GridPos(i + 1, j, cellSize)
    requires st.bl.pos == GridPos(i, j + 1, cellSize)
    ensures st.Upright()
    ensures forall w :: st.Contains(w) ==>
      0.0 <= w.x <= nCellsX as real * cellSize && 0.0 <= w.y <= nCellsY as real * cellSize
  {
    ScaledStep(i, nCellsX, cellSize);
    ScaledStep(j, nCellsY, cellSize);
  }

  /** A point grid whose points are pairwise different objects. */
  ghost predicate DistinctGrid(g: seq<seq<Point>>) {
    forall i, j, i', j' | 0 <= i < |g| && 0 <= j < |g[i]| && 0 <= i' < |g| && 0 <= j' < |g[i']| && (i != i' || j != j') ::
      g[i][j] != g[i'][j']
  }

  /** (nCellsX + 1) columns of (nCellsY + 1) points, point (i, j) at
      (i * cellSize, j * cellSize) with the given threshold. */
  ghost predicate PlacedGrid(g: seq<seq<Point>>, nCellsX: int, nCellsY: int, cellSize: real, threshold: real) {
    && |g| == nCellsX + 1
    && (forall i | 0 <= i < |g| :: |g[i]| == nCellsY + 1)
    && (forall i, j | 0 <= i < |g| && 0 <= j < |g[i]| ::
          g[i][j].pos == GridPos(i, j, cellSize) && g[i][j].threshold == threshold)
  }

  /** Every point of the grid holds value v. */
  ghost predicate GridValuesAre(g: seq<seq<Point>>, v: real)
    reads GridSet(g)
  {
    forall i, j | 0 <= i < |g| && 0 <= j < |g[i]| :: g[i][j].value == v
  }

  ghost function GridSet(g: seq<seq<Point>>): set<object> {
    set i, j | 0 <= i < |g| && 0 <= j < |g[i]| :: g[i][j]
  }

  /** Position of grid point (i, j). */
  function GridPos(i: int, j: int, cellSize: real): Vec {
    Vec(i as real * cellSize, j as real * cellSize)
  }

  class Surface {
    const width: real
    const height: real
    const longerSide: real
    /** Divisions along the longer side. */
    var resolution: real
    var threshold: real
    var points: seq<seq<Point>>
    var cellSize: real
    var nCellsX: int
    var nCellsY: int
    var cells: array<Option<Cell>>
    ghost var Repr: set<object>

    /** The sizes derived from width, height and resolution. */
    ghost predicate Dimensioned()
      reads this
    {
      && width >= 0.0 && height >= 0.0
      && longerSide == Max(width, height) && longerSide > 0.0
      && resolution > 0.0
      && cellSize == longerSide / resolution && cellSize > 0.0
      && nCellsX == CellCount(width, cellSize)
      && nCellsY == CellCount(height, cellSize)
    }

    ghost predicate GridBuilt()
      reads this
    {
      PlacedGrid(points, nCellsX, nCellsY, cellSize, threshold) && DistinctGrid(points)
    }

    /** The cell with corners (i, j), (i + 1, j), (i + 1, j + 1), (i, j + 1). */
    function CellAt(i: int, j: int): Cell
      reads this
      requires |points| == nCellsX + 1 && (forall a | 0 <= a < |points| :: |points[a]| == nCellsY + 1)
      requires 0 <= i < nCellsX && 0 <= j < nCellsY
    {
      Cell(points[i][j], points[i + 1][j], points[i + 1][j + 1], points[i][j + 1])
    }

    /** Every cell present in the array is the cell its index stands for. */
    ghost predicate CellsLinked()
      reads this, cells
      requires Dimensioned() && GridBuilt()
    {
      && cells.Length == nCellsX * nCellsY
      && forall i, j | 0 <= i < nCellsX && 0 <= j < nCellsY ::
           cells[CellIndex(i, j, nCellsX, nCellsY)].Some? ==> cells[CellIndex(i, j, nCellsX, nCellsY)].value == CellAt(i, j)
    }

    ghost predicate Valid()
      reads this, Repr
    {
      && Repr == {this, cells} + GridSet(points)
      && Dimensioned()
      && GridBuilt()
      && CellsLinked()
    }

    /** Every point holds value v. */
    ghost predicate ValuesAre(v: real)
      reads this, GridSet(points)
    {
      GridValuesAre(points, v)
    }

    ghost predicate NoCells()
      reads this, cells
    {
      forall k | 0 <= k < cells.Length :: cells[k] == None
    }

    predicate AllCells()
      reads this, cells
    {
      forall k | 0 <= k < cells.Length :: cells[k].Some?
    }

    constructor (width: real, height: real, resolution: real, threshold: real := 0.5)
      requires width >= 0.0 && height >= 0.0 && Max(width, height) > 0.0
      requires resolution > 0.0
      ensures Valid() && fresh(Repr)
      ensures this.width == width && this.height == height
      ensures this.resolution == resolution && this.threshold == threshold
      ensures cellSize == Max(width, height) / resolution
      ensures nCellsX == CellCount(width, cellSize) && nCellsY == CellCount(height, cellSize)
      ensures ValuesAre(0.0) && NoCells()
    {
      this.width := width;
      this.height := height;
      this.resolution := resolution;
      this.threshold := threshold;
      var longerSide := Max(width, height);
      this.longerSide := longerSide;
      var cellSize := longerSide / resolution;
      this.cellSize := cellSize;
      this.nCellsX := CellCount(width, cellSize);
      this.nCellsY := CellCount(height, cellSize);
      new;
      Reset();
    }

    method SetResolution(value: real)
      requires Valid() && value > 0.0
      modifies this
      ensures Valid() && fresh(Repr - {this})
      ensures resolution == value && threshold == old(threshold)
      ensures cellSize == longerSide / value
      ensures nCellsX == CellCount(width, cellSize) && nCellsY == CellCount(height, cellSize)
      ensures ValuesAre(0.0) && NoCells()
    {
      resolution := value;
      cellSize := longerSide / resolution;
      nCellsX := CellCount(width, cellSize);
      nCellsY := CellCount(height, cellSize);
      Reset();
    }

    method SetThreshold(value: real)
      requires Valid()
      modifies this
      ensures Valid() && fresh(Repr - {this})
      ensures threshold == value && resolution == old(resolution)
      ensures cellSize == old(cellSize) && nCellsX == old(nCellsX) && nCellsY == old(nCellsY)
      ensures ValuesAre(0.0) && NoCells()
    {
      threshold := value;
      Reset();
    }

    /** The step all three share: a fresh point grid for the current sizes
        and an empty cell array of nCellsX * nCellsY slots. */
    method Reset()
      requires Dimensioned()
      modifies this
      ensures Valid() && fresh(Repr - {this})
      ensures resolution == old(resolution) && threshold == old(threshold)
      ensures cellSize == old(cellSize) && nCellsX == old(nCellsX) && nCellsY == old(nCellsY)
      ensures ValuesAre(0.0) && NoCells()
    {
      points := InitPoints();
      cells := new Option<Cell>[nCellsX * nCellsY](_ => None);
      Repr := {this, cells} + GridSet(points);
    }

    /** Resamples every point with the updater, then rebuilds every cell. */
    method Update(updater: (PointState, int, int) -> real)
      requires Valid()
      modifies Repr - {this}
      ensures Valid()
      ensures forall i, j | 0 <= i < |points| && 0 <= j < |points[i]| ::
        points[i][j].value == updater(old(points[i][j].State()), i, j)
      ensures forall i, j | 0 <= i < nCellsX && 0 <= j < nCellsY ::
        cells[CellIndex(i, j, nCellsX, nCellsY)] == Some(CellAt(i, j))
      ensures AllCells()
    {
      UpdatePoints(updater);
      UpdateCells();
    }

    /** initPoints: a fresh grid for the current sizes, every value 0. */
    method InitPoints() returns (grid: seq<seq<Point>>)
      requires nCellsX >= 0 && nCellsY >= 0
      ensures PlacedGrid(grid, nCellsX, nCellsY, cellSize, threshold) && DistinctGrid(grid)
      ensures GridValuesAre(grid, 0.0)
      ensures fresh(GridSet(grid))
    {
      grid := [];
      for i := 0 to nCellsX + 1
        invariant |grid| == i
        invariant forall a | 0 <= a < i :: |grid[a]| == nCellsY + 1
        invariant forall a, b | 0 <= a < i && 0 <= b < |grid[a]| ::
          && fresh(grid[a][b])
          && grid[a][b].pos == GridPos(a, b, cellSize)
          && grid[a][b].value == 0.0
          && grid[a][b].threshold == threshold
        invariant DistinctGrid(grid)
      {
        var row: seq<Point> := [];
        for j := 0 to nCellsY + 1
          invariant |row| == j
          invariant forall b | 0 <= b < j ::
            && fresh(row[b])
            && row[b].pos == GridPos(i, b, cellSize)
            && row[b].value == 0.0
            && row[b].threshold == threshold
          invariant forall a, b | 0 <= a < i && 0 <= b < |grid[a]| ::
            grid[a][b].value == 0.0
          invariant forall b, b' | 0 <= b < b' < j :: row[b] != row[b']
          invariant forall a, b, b' | 0 <= a < i && 0 <= b < |grid[a]| && 0 <= b' < j :: grid[a][b] != row[b']
        {
          var point := new Point(GridPos(i, j, cellSize), 0.0, threshold);
          row := row + [point];
        }
        grid := grid + [row];
      }
    }

    /** updatePoints: every point's value becomes updater(point, i, j). */
    method UpdatePoints(updater: (PointState, int, int) -> real)
      requires Valid()
      modifies GridSet(points)
      ensures Valid()
      ensures forall i, j | 0 <= i < |points| && 0 <= j < |points[i]| ::
        points[i][j].value == updater(old(points[i][j].State()), i, j)
    {
      var i := 0;
      while i < |points|
        invariant 0 <= i <= |points|
        invariant forall a, b | 0 <= a < i && 0 <= b < |points[a]| ::
          points[a][b].value == updater(old(points[a][b].State()), a, b)
        invariant forall a, b | i <= a < |points| && 0 <= b < |points[a]| ::
          points[a][b].value == old(points[a][b].value)
      {
        var j := 0;
        while j < |points[i]|
          invariant 0 <= j <= |points[i]|
          invariant forall a, b | 0 <= a < i && 0 <= b < |points[a]| ::
            points[a][b].value == updater(old(points[a][b].State()), a, b)
          invariant forall b | 0 <= b < j ::
            points[i][b].value == updater(old(points[i][b].State()), i, b)
          invariant forall a, b | i <= a < |points| && 0 <= b < |points[a]| && (a != i || j <= b) ::
            points[a][b].value == old(points[a][b].value)
        {
          var value := updater(points[i][j].State(), i, j);
          points[i][j].SetValue(value);
          j := j + 1;
        }
        i := i + 1;
      }
    }

    /** updateCells: cell (i, j) is stored at i * nCellsY + j. */
    method UpdateCells()
      requires Valid()
      modifies cells
      ensures Valid()
      ensures forall i, j | 0 <= i < nCellsX && 0 <= j < nCellsY ::
        cells[CellIndex(i, j, nCellsX, nCellsY)] == Some(CellAt(i, j))
      ensures AllCells()
    {
      var i := 0;
      while i < |points| - 1
        invariant 0 <= i <= nCellsX
        invariant forall a, b | 0 <= a < i && 0 <= b < nCellsY ::
          cells[CellIndex(a, b, nCellsX, nCellsY)] == Some(CellAt(a, b))
      {
        var j := 0;
        while j < |points[i]| - 1
          invariant 0 <= j <= nCellsY
          invariant forall a, b | 0 <= a < i && 0 <= b < nCellsY ::
            cells[CellIndex(a, b, nCellsX, nCellsY)] == Some(CellAt(a, b))
          invariant forall b | 0 <= b < j ::
            cells[CellIndex(i, b, nCellsX, nCellsY)] == Some(CellAt(i, b))
        {
          var cell := Cell(points[i][j], points[i + 1][j], points[i + 1][j + 1], points[i][j + 1]);
          var k := i * nCellsY + j;
          assert k == CellIndex(i, j, nCellsX, nCellsY);
          CellIndexElsewhere(i, j, nCellsX, nCellsY);
          cells[k] := Some(cell);
          j := j + 1;
        }
        i := i + 1;
      }
      forall k | 0 <= k < cells.Length
        ensures cells[k].Some?
      {
        CellIndexOnto(k, nCellsX, nCellsY);
      }
    }

    /** w lies on the area the point grid spans. */
    predicate InGrid(w: Vec)
      reads this
    {
      0.0 <= w.x <= nCellsX as real * cellSize && 0.0 <= w.y <= nCellsY as real * cellSize
    }

    /** Cell (i, j) is made of the surface's own points, its corners are
        laid out upright, and whatever lies in it lies on the grid. */
    lemma CellAtPlacement(i: int, j: int)
      requires Valid() && 0 <= i < nCellsX && 0 <= j < nCellsY
      ensures CellAt(i, j).Footprint() <= Repr
      ensures CellAt(i, j).State().Upright()
      ensures forall w :: CellAt(i, j).State().Contains(w) ==> InGrid(w)
    {
      assert points[i][j] in GridSet(points) && points[i + 1][j] in GridSet(points);
      assert points[i + 1][j + 1] in GridSet(points) && points[i][j + 1] in GridSet(points);
      CellAtGeometry(i, j);
    }

    lemma CellAtGeometry(i: int, j: int)
      requires PlacedGrid(points, nCellsX, nCellsY, cellSize, threshold) && cellSize > 0.0
      requires 0 <= i < nCellsX && 0 <= j < nCellsY
      ensures CellAt(i, j).State().Upright()
      ensures forall w :: CellAt(i, j).State().Contains(w) ==> InGrid(w)
    {
      GridCellPlacement(CellAt(i, j).State(), i, j, nCellsX, nCellsY, cellSize);
    }

    /** The cell stored at index k, once updateCells has put one there. */
    lemma StoredCell(k: int)
      requires Valid() && 0 <= k < cells.Length && cells[k].Some?
      ensures 0 <= k / nCellsY < nCellsX && 0 <= k % nCellsY < nCellsY
      ensures cells[k].value == CellAt(k / nCellsY, k % nCellsY)
    {
      CellIndexOnto(k, nCellsX, nCellsY);
    }

    /** The segments drawContour draws for the cell stored in slot m. */
    function SlotLines(m: int, interpolate: bool): (lines: seq<(Vec, Vec)>)
      reads this, Repr
      requires Valid() && 0 <= m < cells.Length && cells[m].Some?
      ensures |lines| == |LineTable(cells[m].value.Key())|
      ensures forall s | s in lines :: InGrid(s.0) && InGrid(s.1)
    {
      StoredCell(m);
      CellAtPlacement(m / nCellsY, m % nCellsY);
      var cell := cells[m].value;
      if interpolate then cell.InterpolatedLineCoords() else cell.RegularLineCoords()
    }

    /** The polygon drawInside fills for the cell stored in slot m. */
    function SlotPolygon(m: int, interpolate: bool): (vertices: seq<Vec>)
      reads this, Repr
      requires Valid() && 0 <= m < cells.Length && cells[m].Some?
      ensures |vertices| == |AreaTable(cells[m].value.Key())|
      ensures forall v | v in vertices :: InGrid(v)
    {
      StoredCell(m);
      CellAtPlacement(m / nCellsY, m % nCellsY);
      var cell := cells[m].value;
      if interpolate then cell.InterpolatedVertexCoords() else cell.RegularVertexCoords()
    }

    /** drawContour: every cell's segments, grouped by cell in slot
        order. It exists exactly when every cell is built (an empty slot
        makes the source throw), and it stays on the grid. */
    function Contour(interpolate: bool := false): (r: Option<seq<seq<(Vec, Vec)>>>)
      reads this, Repr
      requires Valid()
      ensures r.Some? <==> AllCells()
      ensures r.Some? ==> |r.value| == nCellsX * nCellsY
      ensures r.Some? ==> forall m | 0 <= m < |r.value| :: r.value[m] == SlotLines(m, interpolate)
      ensures r.Some? ==> forall m, s | 0 <= m < |r.value| && s in r.value[m] :: InGrid(s.0) && InGrid(s.1)
    {
      if AllCells() then
        Some(seq(cells.Length, m requires 0 <= m < cells.Length && Valid() && AllCells() reads this, Repr =>
          SlotLines(m, interpolate)))
      else None
    }

    /** drawInside: one polygon per cell in slot order, on the grid. */
    function Inside(interpolate: bool := false): (r: Option<seq<seq<Vec>>>)
      reads this, Repr
      requires Valid()
      ensures r.Some? <==> AllCells()
      ensures r.Some? ==> |r.value| == nCellsX * nCellsY
      ensures r.Some? ==> forall m | 0 <= m < |r.value| :: r.value[m] == SlotPolygon(m, interpolate)
      ensures r.Some? ==> forall m, v | 0 <= m < |r.value| && v in r.value[m] :: InGrid(v)
    {
      if AllCells() then
        Some(seq(cells.Length, m requires 0 <= m < cells.Length && Valid() && AllCells() reads this, Repr =>
          SlotPolygon(m, interpolate)))
      else None
    }

    /** After an update, what drawContour and drawInside draw at slot
        i * nCellsY + j is the geometry of cell (i, j). */
    lemma DrawnGeometryOfCell(i: int, j: int, interpolate: bool)
      requires Valid() && AllCells() && 0 <= i < nCellsX && 0 <= j < nCellsY
      ensures Contour(interpolate).Some? && Inside(interpolate).Some?
      ensures Contour(interpolate).value[CellIndex(i, j, nCellsX, nCellsY)]
        == if interpolate then CellAt(i, j).InterpolatedLineCoords() else CellAt(i, j).RegularLineCoords()
      ensures Inside(interpolate).value[CellIndex(i, j, nCellsX, nCellsY)]
        == if interpolate then CellAt(i, j).InterpolatedVertexCoords() else CellAt(i, j).RegularVertexCoords()
    {
      var k := CellIndex(i, j, nCellsX, nCellsY);
      assert cells[k].Some? && cells[k].value == CellAt(i, j);
    }

    /** What the points show agrees with the cell keys: a corner's digit
        is set exactly when drawPoints(true) strokes that point white and
        exactly when drawPointValues highlights its label. */
    lemma KeyAgreesWithPointShading(i: int, j: int, c: Corner)
      requires Valid() && 0 <= i < nCellsX && 0 <= j < nCellsY
      ensures KeyBit(CellAt(i, j).Key(), c) <==> CellAt(i, j).PointAt(c).BinaryGrey() == White
      ensures KeyBit(CellAt(i, j).Key(), c) <==> CellAt(i, j).PointAt(c).ValueLabelFill() == Highlighted
    {
      var cell := CellAt(i, j);
      assert cell.PointAt(c).threshold == threshold == cell.topLeft.threshold;
    }
  }
}
