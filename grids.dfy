/**
 * The simulation grid (src/grid.cpp): a width x height area split into nColumns x nRows cells
 * numbered row by row from the south-west corner, seven grid-wide arrays the cells alias, and
 * the operations that sample, update and extract them.
 */
module Grids {
  import opened Wrappers
  import opened Cells

  // ---------------------------------------------------------------------------------------------
  // Integer and real helper facts
  // ---------------------------------------------------------------------------------------------

  lemma MulMonotone(a: nat, b: nat, n: nat)
    requires a <= b
    ensures a * n <= b * n
  {
  }

  lemma MultipleBounds(d: int, n: int)
    requires n >= 0
    ensures d >= 1 ==> d * n >= n
    ensures d <= -1 ==> d * n <= 0 - n
  {
    if d >= 1 {
      MulMonotone(1, d, n);
    } else if d <= -1 {
      MulMonotone(1, 0 - d, n);
    }
  }

  /** Quotient and remainder are determined by `i == q * n + r` with `r < n`. */
  lemma DivModUnique(i: nat, n: nat, q: nat, r: nat)
    requires n > 0 && r < n && i == q * n + r
    ensures i / n == q && i % n == r
  {
    var q', r' := i / n, i % n;
    assert i == q' * n + r';
    assert (q - q') * n == r' - r;
    MultipleBounds(q - q', n);
  }

  lemma RealMulCancel(k: int, n: int, d: real)
    requires 0.0 < d
    ensures k as real * d < n as real * d ==> k < n
  {
    if k >= n {
      MulNonnegative((k - n) as real, d);
    }
  }

  /**
   * The cell coordinate `k` the source computes by truncating `a / d` toward zero, for a
   * non-negative `a`, is the one whose interval `[k * d, (k + 1) * d)` holds `a`.
   */
  lemma FloorInterval(a: real, d: real)
    requires 0.0 <= a && 0.0 < d
    ensures 0 <= (a / d).Floor
    ensures ((a / d).Floor) as real * d <= a < ((a / d).Floor + 1) as real * d
  {
    var q := a / d;
    var k := q.Floor;
    assert q * d == a;
    MulNonnegative(a, 1.0 / d);
    assert q == a * (1.0 / d);
    MulNonnegative(q - k as real, d);
    assert (k + 1) as real - q > 0.0;
    assert ((k + 1) as real - q) * d > 0.0;
  }

  // ---------------------------------------------------------------------------------------------
  // Dimensions, indices and neighbour wiring
  // ---------------------------------------------------------------------------------------------

  /** The constructor's arguments: the size of the area and the number of columns and rows. */
  datatype Dimensions = Dimensions(width: real, height: real, nColumns: nat, nRows: nat)
  {
    /** What the constructor accepts: a positive area and at least one column and one row. */
    predicate Valid()
    {
      width > 0.0 && height > 0.0 && nColumns > 0 && nRows > 0
    }

    /** The index of the first cell of row y: y full rows of nColumns cells before it. */
    function RowStart(y: nat): nat
    {
      if y == 0 then 0 else RowStart(y - 1) + nColumns
    }

    /** m_size, the number of cells: nRows full rows. */
    function Size(): nat
    {
      RowStart(nRows)
    }

    function DeltaU(): real
      requires nColumns > 0
    {
      width / nColumns as real
    }

    function DeltaV(): real
      requires nRows > 0
    {
      height / nRows as real
    }

    /** grid.cpp toIndex: rows of nColumns cells, south to north (see ToIndexIsRowMajor). */
    function ToIndex(x: nat, y: nat): nat
    {
      RowStart(y) + x
    }

    /**
     * grid.cpp toCartesian: (column, row) of an index, counted by whole rows (see
     * ToCartesianIsDivMod).
     */
    function ToCartesian(i: nat): (nat, nat)
      requires nColumns > 0
      decreases i
    {
      if i < nColumns then (i, 0)
      else
        var below := ToCartesian(i - nColumns);
        (below.0, below.1 + 1)
    }

    /**
     * The neighbours of cell `i` when the guards compare against the numbers of rows and
     * columns: north unless in the top row, south unless in the bottom row, east unless in the
     * last column, west unless in the first column.
     */
    function Wiring(i: nat): (n: Neighbours)
      requires Valid() && i < Size()
      ensures n.Below(Size())
    {
      CartesianRoundTrip(this, i);
      NeighboursInRange(this, ToCartesian(i).0, ToCartesian(i).1);
      Neighbourhood(ToCartesian(i).0, ToCartesian(i).1)
    }

    /** The intended neighbours of the cell at column c, row r. */
    function Neighbourhood(c: nat, r: nat): Neighbours
    {
      Neighbours(
        north := if r + 1 < nRows then Some(ToIndex(c, r + 1)) else None,
        south := if r >= 1 then Some(ToIndex(c, r - 1)) else None,
        east := if c + 1 < nColumns then Some(ToIndex(c + 1, r)) else None,
        west := if c >= 1 then Some(ToIndex(c - 1, r)) else None)
    }

    /** A checked access `at(j)` to the cell vector, producing the neighbour's index. */
    function At(j: nat): Result<Option<nat>, Fault>
    {
      if j < Size() then Success(Some(j)) else Failure(OutOfRange)
    }

    /**
     * The neighbours of cell `i` as initGrids computes them: the north and east guards compare
     * the one-based row and column with the height and the width of the area, and every
     * neighbour is fetched with a checked access that throws out_of_range past the last cell.
     */
    function WiringAsWritten(i: nat): Result<Neighbours, Fault>
      requires Valid() && i < Size()
    {
      var (c, r) := ToCartesian(i);
      var north := if ((r + 1) as real) < height then At(ToIndex(c, r + 1)) else Success(None);
      var south := if r + 1 >= 2 then At(ToIndex(c, r - 1)) else Success(None);
      var east := if ((c + 1) as real) < width then At(ToIndex(c + 1, r)) else Success(None);
      var west := if c + 1 >= 2 then At(ToIndex(c - 1, r)) else Success(None);
      if north.Failure? || south.Failure? || east.Failure? || west.Failure? then Failure(OutOfRange)
      else Success(Neighbours(north.value, south.value, east.value, west.value))
    }

    /** The bounds of cell `i`, taken from the grid points `k * deltaU` and `k * deltaV`. */
    function CellGeometry(i: nat): Geometry
      requires Valid()
    {
      var (c, r) := ToCartesian(i);
      MakeGeometry(Vec2(c as real * DeltaU(), r as real * DeltaV()),
                   Vec2((c + 1) as real * DeltaU(), (r + 1) as real * DeltaV()))
    }

    /** grid.cpp cell(point): the index of the cell under a non-negative point, by truncation. */
    function Locate(p: Vec2): nat
      requires Valid() && 0.0 <= p.x && 0.0 <= p.y
    {
      FloorInterval(p.x, DeltaU());
      FloorInterval(p.y, DeltaV());
      ToIndex((p.x / DeltaU()).Floor as nat, (p.y / DeltaV()).Floor as nat)
    }

    /** The largest width and height for which the as-written guards are those intended. */
    predicate Tight()
    {
      (nColumns as real) - 1.0 < width <= nColumns as real &&
      (nRows as real) - 1.0 < height <= nRows as real
    }
  }

  lemma {:induction false} RowStartIsProduct(d: Dimensions, y: nat)
    ensures d.RowStart(y) == y * d.nColumns
  {
    if y > 0 {
      RowStartIsProduct(d, y - 1);
    }
  }

  /** toIndex is `y * nColumns + x` and the size is `nColumns * nRows`, as in the source. */
  lemma ToIndexIsRowMajor(d: Dimensions, x: nat, y: nat)
    ensures d.ToIndex(x, y) == y * d.nColumns + x
    ensures d.Size() == d.nColumns * d.nRows
  {
    RowStartIsProduct(d, y);
    RowStartIsProduct(d, d.nRows);
  }

  /** toCartesian is `(i % nColumns, i / nColumns)`, as in the source. */
  lemma {:induction false} ToCartesianIsDivMod(d: Dimensions, i: nat)
    requires d.nColumns > 0
    ensures d.ToCartesian(i) == (i % d.nColumns, i / d.nColumns)
    decreases i
  {
    var n := d.nColumns;
    if i < n {
      DivModUnique(i, n, 0, i);
    } else {
      ToCartesianIsDivMod(d, i - n);
      var q, r := (i - n) / n, (i - n) % n;
      assert i - n == q * n + r;
      DivModUnique(i, n, q + 1, r);
    }
  }

  lemma {:induction false} RowStartMonotone(d: Dimensions, a: nat, b: nat)
    ensures a < b ==> d.RowStart(a) + d.nColumns <= d.RowStart(b)
  {
    if a + 1 < b {
      RowStartMonotone(d, a, b - 1);
    }
  }

  lemma RowStartWithin(d: Dimensions, y: nat)
    requires y <= d.nRows
    ensures d.RowStart(y) <= d.Size()
  {
    RowStartMonotone(d, y, d.nRows);
  }

  lemma IndexInRange(d: Dimensions, x: nat, y: nat)
    requires x < d.nColumns && y < d.nRows
    ensures d.ToIndex(x, y) < d.Size()
  {
    RowStartMonotone(d, y, d.nRows);
  }

  lemma IndexBeyond(d: Dimensions, x: nat, y: nat)
    ensures d.nRows <= y ==> d.Size() <= d.ToIndex(x, y)
  {
    RowStartMonotone(d, d.nRows, y);
  }

  /** Cell k of column i exists exactly when k is below the number of rows. */
  lemma ColumnIndex(d: Dimensions, i: nat, k: nat)
    requires i < d.nColumns
    ensures d.ToIndex(i, k) < d.Size() <==> k < d.nRows
    ensures d.ToIndex(i, k + 1) == d.ToIndex(i, k) + d.nColumns
  {
    RowStartMonotone(d, k, d.nRows);
    IndexBeyond(d, i, k);
  }

  /** The first `n` entries of column `i` of a row-major sequence `all`, from south to north. */
  function ColumnPrefix<T>(d: Dimensions, all: seq<T>, i: nat, n: nat): seq<T>
    requires i < d.nColumns && n <= d.nRows && |all| == d.Size()
  {
    if n == 0 then []
    else
      ColumnIndex(d, i, n - 1);
      ColumnPrefix(d, all, i, n - 1) + [all[d.ToIndex(i, n - 1)]]
  }

  lemma {:induction false} ColumnPrefixCells<T>(d: Dimensions, all: seq<T>, i: nat, n: nat)
    requires i < d.nColumns && n <= d.nRows && |all| == d.Size()
    ensures |ColumnPrefix(d, all, i, n)| == n
    ensures forall k :: 0 <= k < n ==>
      d.ToIndex(i, k) < |all| && ColumnPrefix(d, all, i, n)[k] == all[d.ToIndex(i, k)]
  {
    if n > 0 {
      ColumnPrefixCells(d, all, i, n - 1);
      ColumnIndex(d, i, n - 1);
      forall k | 0 <= k < n - 1
        ensures d.ToIndex(i, k) < |all|
      {
        ColumnIndex(d, i, k);
      }
    }
  }

  lemma {:induction false} CartesianOfIndex(d: Dimensions, x: nat, y: nat)
    requires x < d.nColumns
    ensures d.ToCartesian(d.ToIndex(x, y)) == (x, y)
  {
    if y > 0 {
      CartesianOfIndex(d, x, y - 1);
    }
  }

  /** toCartesian inverts toIndex on the cells of the grid. */
  lemma IndexRoundTrip(d: Dimensions, x: nat, y: nat)
    requires d.Valid() && x < d.nColumns && y < d.nRows
    ensures d.ToIndex(x, y) < d.Size()
    ensures d.ToCartesian(d.ToIndex(x, y)) == (x, y)
  {
    IndexInRange(d, x, y);
    CartesianOfIndex(d, x, y);
  }

  lemma {:induction false} IndexOfCartesian(d: Dimensions, i: nat)
    requires d.nColumns > 0
    ensures d.ToCartesian(i).0 < d.nColumns
    ensures d.ToIndex(d.ToCartesian(i).0, d.ToCartesian(i).1) == i
    decreases i
  {
    if i >= d.nColumns {
      IndexOfCartesian(d, i - d.nColumns);
    }
  }

  /** toIndex inverts toCartesian, and every index below the size has in-range coordinates. */
  lemma CartesianRoundTrip(d: Dimensions, i: nat)
    requires d.Valid() && i < d.Size()
    ensures d.ToCartesian(i).0 < d.nColumns && d.ToCartesian(i).1 < d.nRows
    ensures d.ToIndex(d.ToCartesian(i).0, d.ToCartesian(i).1) == i
  {
    IndexOfCartesian(d, i);
    IndexBeyond(d, d.ToCartesian(i).0, d.ToCartesian(i).1);
  }

  lemma NeighboursInRange(d: Dimensions, c: nat, r: nat)
    requires d.Valid() && c < d.nColumns && r < d.nRows
    ensures r + 1 < d.nRows ==> d.ToIndex(c, r + 1) < d.Size()
    ensures r >= 1 ==> d.ToIndex(c, r - 1) < d.Size()
    ensures c + 1 < d.nColumns ==> d.ToIndex(c + 1, r) < d.Size()
    ensures c >= 1 ==> d.ToIndex(c - 1, r) < d.Size()
  {
    IndexInRange(d, c, r);
    if r + 1 < d.nRows {
      IndexInRange(d, c, r + 1);
    }
  }

  /**
   * Cell (c, r) has a south neighbour exactly when r > 0, a west one exactly when c > 0, a
   * north one exactly when it is below the top row and an east one exactly when it is left of
   * the last column, and each neighbour is the adjacent cell in its direction.
   */
  lemma WiringAdjacency(d: Dimensions, c: nat, r: nat)
    requires d.Valid() && c < d.nColumns && r < d.nRows
    ensures d.ToIndex(c, r) < d.Size() && d.Wiring(d.ToIndex(c, r)) == d.Neighbourhood(c, r)
    ensures var n := d.Neighbourhood(c, r);
      (n.north.None? <==> r == d.nRows - 1) && (n.south.None? <==> r == 0) &&
      (n.east.None? <==> c == d.nColumns - 1) && (n.west.None? <==> c == 0) &&
      (n.north.Some? ==> d.ToCartesian(n.north.value) == (c, r + 1)) &&
      (n.south.Some? ==> d.ToCartesian(n.south.value) == (c, r - 1)) &&
      (n.east.Some? ==> d.ToCartesian(n.east.value) == (c + 1, r)) &&
      (n.west.Some? ==> d.ToCartesian(n.west.value) == (c - 1, r))
  {
    WiringAt(d, c, r);
    NeighbourCoordinates(d, c, r);
  }

  lemma WiringAt(d: Dimensions, c: nat, r: nat)
    requires d.Valid() && c < d.nColumns && r < d.nRows
    ensures d.ToIndex(c, r) < d.Size() && d.Wiring(d.ToIndex(c, r)) == d.Neighbourhood(c, r)
  {
    IndexRoundTrip(d, c, r);
  }

  lemma NeighbourCoordinates(d: Dimensions, c: nat, r: nat)
    requires d.Valid() && c < d.nColumns && r < d.nRows
    ensures r + 1 < d.nRows ==> d.ToCartesian(d.ToIndex(c, r + 1)) == (c, r + 1)
    ensures r >= 1 ==> d.ToCartesian(d.ToIndex(c, r - 1)) == (c, r - 1)
    ensures c + 1 < d.nColumns ==> d.ToCartesian(d.ToIndex(c + 1, r)) == (c + 1, r)
    ensures c >= 1 ==> d.ToCartesian(d.ToIndex(c - 1, r)) == (c - 1, r)
  {
    if r + 1 < d.nRows {
      IndexRoundTrip(d, c, r + 1);
    }
    if r >= 1 {
      IndexRoundTrip(d, c, r - 1);
    }
    if c + 1 < d.nColumns {
      IndexRoundTrip(d, c + 1, r);
    }
    if c >= 1 {
      IndexRoundTrip(d, c - 1, r);
    }
  }

  /** The wiring is symmetric: i's east neighbour has i as west neighbour, and likewise N/S. */
  lemma WiringSymmetric(d: Dimensions, i: nat)
    requires d.Valid() && i < d.Size()
    ensures var n := d.Wiring(i);
      (n.east.Some? ==> d.Wiring(n.east.value).west == Some(i)) &&
      (n.west.Some? ==> d.Wiring(n.west.value).east == Some(i)) &&
      (n.north.Some? ==> d.Wiring(n.north.value).south == Some(i)) &&
      (n.south.Some? ==> d.Wiring(n.south.value).north == Some(i))
  {
    CartesianRoundTrip(d, i);
    var (c, r) := d.ToCartesian(i);
    WiringAt(d, c, r);
    HorizontalNeighboursMeet(d, c, r);
    VerticalNeighboursMeet(d, c, r);
  }

  lemma HorizontalNeighboursMeet(d: Dimensions, c: nat, r: nat)
    requires d.Valid() && c < d.nColumns && r < d.nRows
    ensures c + 1 < d.nColumns ==>
      (d.ToIndex(c + 1, r) < d.Size() && d.Wiring(d.ToIndex(c + 1, r)).west == Some(d.ToIndex(c, r)))
    ensures c >= 1 ==>
      (d.ToIndex(c - 1, r) < d.Size() && d.Wiring(d.ToIndex(c - 1, r)).east == Some(d.ToIndex(c, r)))
  {
    if c + 1 < d.nColumns {
      WiringAt(d, c + 1, r);
    }
    if c >= 1 {
      WiringAt(d, c - 1, r);
    }
  }

  lemma VerticalNeighboursMeet(d: Dimensions, c: nat, r: nat)
    requires d.Valid() && c < d.nColumns && r < d.nRows
    ensures r + 1 < d.nRows ==>
      (d.ToIndex(c, r + 1) < d.Size() && d.Wiring(d.ToIndex(c, r + 1)).south == Some(d.ToIndex(c, r)))
    ensures r >= 1 ==>
      (d.ToIndex(c, r - 1) < d.Size() && d.Wiring(d.ToIndex(c, r - 1)).north == Some(d.ToIndex(c, r)))
  {
    if r + 1 < d.nRows {
      WiringAt(d, c, r + 1);
    }
    if r >= 1 {
      WiringAt(d, c, r - 1);
    }
  }

  lemma WiringAgreesWhenTight(d: Dimensions, i: nat)
    requires d.Valid() && i < d.Size() && d.Tight()
    ensures d.WiringAsWritten(i) == Success(d.Wiring(i))
  {
    CartesianRoundTrip(d, i);
    var (c, r) := d.ToCartesian(i);
    NeighboursInRange(d, c, r);
  }

  /**
   * The as-written wiring is the intended one for every cell exactly when the width lies in
   * (nColumns - 1, nColumns] and the height in (nRows - 1, nRows]; for any other area some
   * cell gets a wrong neighbour or initGrids throws.
   */
  lemma WiringAsWrittenAgreesIff(d: Dimensions)
    requires d.Valid()
    ensures (forall i :: 0 <= i < d.Size() ==> d.WiringAsWritten(i) == Success(d.Wiring(i))) <==> d.Tight()
  {
    if d.Tight() {
      forall i | 0 <= i < d.Size()
        ensures d.WiringAsWritten(i) == Success(d.Wiring(i))
      {
        WiringAgreesWhenTight(d, i);
      }
    } else {
      var i := WiringWitness(d);
      assert d.WiringAsWritten(i) != Success(d.Wiring(i));
    }
  }

  /** A cell whose as-written wiring differs from the intended one, for an area not tight. */
  lemma WiringWitness(d: Dimensions) returns (i: nat)
    requires d.Valid() && !d.Tight()
    ensures i < d.Size() && d.WiringAsWritten(i) != Success(d.Wiring(i))
  {
    var nC, nR := d.nColumns, d.nRows;
    if d.width > nC as real {
      i := d.ToIndex(nC - 1, 0);
      IndexRoundTrip(d, nC - 1, 0);
    } else if d.width <= (nC as real) - 1.0 {
      i := d.ToIndex(nC - 2, 0);
      IndexRoundTrip(d, nC - 2, 0);
      NeighboursInRange(d, nC - 2, 0);
    } else if d.height > nR as real {
      i := d.ToIndex(0, nR - 1);
      IndexRoundTrip(d, 0, nR - 1);
      IndexBeyond(d, 0, nR);
    } else {
      i := d.ToIndex(0, nR - 2);
      IndexRoundTrip(d, 0, nR - 2);
      NeighboursInRange(d, 0, nR - 2);
    }
  }

  /**
   * initGrids as written throws out_of_range exactly when the width exceeds the number of
   * columns or the height exceeds the number of rows.
   */
  lemma InitGridsAsWrittenThrowsIff(d: Dimensions)
    requires d.Valid()
    ensures (exists i :: 0 <= i < d.Size() && d.WiringAsWritten(i).Failure?) <==>
            (d.width > d.nColumns as real || d.height > d.nRows as real)
  {
    var nC, nR := d.nColumns, d.nRows;
    if d.width > nC as real || d.height > nR as real {
      var i := d.ToIndex(nC - 1, nR - 1);
      IndexRoundTrip(d, nC - 1, nR - 1);
      IndexBeyond(d, nC - 1, nR);
      assert d.WiringAsWritten(i).Failure?;
    } else {
      forall i | 0 <= i < d.Size()
        ensures d.WiringAsWritten(i).Success?
      {
        CartesianRoundTrip(d, i);
        var (c, r) := d.ToCartesian(i);
        NeighboursInRange(d, c, r);
      }
    }
  }

  /**
   * When the area is no larger than the cells, nothing throws as written, and a cell keeps
   * its east or north neighbour exactly when its one-based column or row is below the
   * width or the height.
   */
  lemma AsWrittenGuards(d: Dimensions, x: nat, y: nat)
    requires d.Valid() && x < d.nColumns && y < d.nRows
    requires d.width <= d.nColumns as real && d.height <= d.nRows as real
    ensures var i := d.ToIndex(x, y);
      i < d.Size() && d.WiringAsWritten(i).Success? &&
      (d.WiringAsWritten(i).value.east == None <==> (x + 1) as real >= d.width) &&
      (d.WiringAsWritten(i).value.north == None <==> (y + 1) as real >= d.height) &&
      (d.Wiring(i).east == None <==> x + 1 == d.nColumns) &&
      (d.Wiring(i).north == None <==> y + 1 == d.nRows)
  {
    IndexRoundTrip(d, x, y);
    NeighboursInRange(d, x, y);
    WiringAdjacency(d, x, y);
  }

  /**
   * A 5 x 5 area in 15 x 15 cells: as written, no cell throws, but every cell from column 4
   * on has no east neighbour and every cell from row 4 on has no north neighbour, while the
   * intended wiring gives one to every cell short of the last column or row.
   */
  lemma CoarseAreaLosesNeighbours(x: nat, y: nat)
    requires x < 15 && y < 15
    ensures var d := Dimensions(5.0, 5.0, 15, 15); var i := d.ToIndex(x, y);
      i < d.Size() && d.WiringAsWritten(i).Success? &&
      (d.WiringAsWritten(i).value.east == None <==> x >= 4) &&
      (d.WiringAsWritten(i).value.north == None <==> y >= 4) &&
      (d.Wiring(i).east == None <==> x == 14) &&
      (d.Wiring(i).north == None <==> y == 14)
  {
    AsWrittenGuards(Dimensions(5.0, 5.0, 15, 15), x, y);
  }

  lemma CellGeometryAt(d: Dimensions, x: nat, y: nat)
    requires d.Valid() && x < d.nColumns && y < d.nRows
    ensures d.ToIndex(x, y) < d.Size()
    ensures d.CellGeometry(d.ToIndex(x, y)) ==
      MakeGeometry(Vec2(x as real * d.DeltaU(), y as real * d.DeltaV()),
                   Vec2((x + 1) as real * d.DeltaU(), (y + 1) as real * d.DeltaV()))
  {
    IndexRoundTrip(d, x, y);
  }

  /** Every cell of the grid has proper bounds, a deltaU wide and a deltaV high. */
  lemma CellGeometryProper(d: Dimensions, i: nat)
    requires d.Valid() && i < d.Size()
    ensures d.CellGeometry(i).Proper()
    ensures d.CellGeometry(i).deltaU == d.DeltaU() && d.CellGeometry(i).deltaV == d.DeltaV()
  {
    var (c, r) := d.ToCartesian(i);
    var du, dv := d.DeltaU(), d.DeltaV();
    assert du > 0.0 && dv > 0.0;
    assert (c + 1) as real * du == c as real * du + du;
    assert (r + 1) as real * dv == r as real * dv + dv;
    GeometryLayout(Vec2(c as real * du, r as real * dv), Vec2((c + 1) as real * du, (r + 1) as real * dv));
  }

  /**
   * Along an axis of the given extent split into n cells, the truncated coordinate of a
   * position in [0, extent) is a cell, and its interval holds the position.
   */
  lemma AxisCell(a: real, extent: real, n: nat)
    requires 0.0 <= a < extent && n > 0
    ensures var k := (a / (extent / n as real)).Floor;
      0 <= k < n && k as real * (extent / n as real) <= a < (k + 1) as real * (extent / n as real)
  {
    var delta := extent / n as real;
    FloorInterval(a, delta);
    assert n as real * delta == extent;
    RealMulCancel((a / delta).Floor, n, delta);
  }

  /**
   * A point of the half-open area [0, width) x [0, height) is located in a cell of the grid,
   * the cell whose coordinates are the truncated quotients, and that cell contains it.
   */
  lemma LocateContains(d: Dimensions, p: Vec2)
    requires d.Valid() && 0.0 <= p.x < d.width && 0.0 <= p.y < d.height
    ensures d.Locate(p) < d.Size()
    ensures d.ToCartesian(d.Locate(p)) == ((p.x / d.DeltaU()).Floor as nat, (p.y / d.DeltaV()).Floor as nat)
    ensures d.CellGeometry(d.Locate(p)).Contains(p)
  {
    AxisCell(p.x, d.width, d.nColumns);
    AxisCell(p.y, d.height, d.nRows);
    var x, y := (p.x / d.DeltaU()).Floor as nat, (p.y / d.DeltaV()).Floor as nat;
    IndexRoundTrip(d, x, y);
    CellGeometryAt(d, x, y);
  }

  lemma LocateInside(d: Dimensions, p: Vec2)
    requires d.Valid() && 0.0 <= p.x && 0.0 <= p.y
    ensures p.x < d.width && p.y < d.height ==> d.Locate(p) < d.Size() && d.CellGeometry(d.Locate(p)).Contains(p)
  {
    if p.x < d.width && p.y < d.height {
      LocateContains(d, p);
    }
  }

  /**
   * A point on the far east edge (x == width, below the height) lands past the last column:
   * its truncated column is nColumns, so toIndex names the first cell of the next row up,
   * which does not contain it, or, in the top row, an index past the last cell.
   */
  lemma FarEastEdge(d: Dimensions, p: Vec2)
    requires d.Valid() && p.x == d.width && 0.0 <= p.y < d.height
    ensures var y := (p.y / d.DeltaV()).Floor as nat;
      y < d.nRows && d.Locate(p) == d.ToIndex(0, y + 1) &&
      (y + 1 < d.nRows ==> !d.CellGeometry(d.Locate(p)).Contains(p)) &&
      (y + 1 == d.nRows ==> d.Locate(p) == d.Size())
  {
    var du, dv := d.DeltaU(), d.DeltaV();
    assert p.x / du == d.nColumns as real;
    AxisCell(p.y, d.height, d.nRows);
    var y := (p.y / dv).Floor as nat;
    if y + 1 < d.nRows {
      CellGeometryAt(d, 0, y + 1);
    }
  }

  /** A point on the far north edge (y == height) lands on an index past the last cell. */
  lemma FarNorthEdge(d: Dimensions, p: Vec2)
    requires d.Valid() && 0.0 <= p.x && p.y == d.height
    ensures d.Locate(p) >= d.Size()
  {
    var dv := d.DeltaV();
    assert p.y / dv == d.nRows as real;
    FloorInterval(p.x, d.DeltaU());
    IndexBeyond(d, (p.x / d.DeltaU()).Floor as nat, d.nRows);
  }

  // ---------------------------------------------------------------------------------------------
  // deltaVelocityUpdate as written
  // ---------------------------------------------------------------------------------------------

  /** A float vector as its logical size and the storage behind it. */
  datatype VectorState = VectorState(size: nat, buffer: seq<real>)

  /**
   * deltaVelocityUpdate as written: clear() empties the delta vector, then the transform
   * writes the differences through its begin() iterator into the storage past its end.
   */
  function DeltaUpdateAsWritten(velocity: seq<real>, initial: seq<real>, delta: VectorState): VectorState
    requires |velocity| == |initial| <= |delta.buffer|
  {
    VectorState(0, seq(|velocity|, k requires 0 <= k < |velocity| => velocity[k] - initial[k]) +
                   delta.buffer[|velocity|..])
  }

  /**
   * After the update as written the delta vector reports size 0 instead of the grid size, so
   * any later checked access to it throws although the cells see the differences.
   */
  lemma DeltaUpdateAsWrittenEmptiesVector(velocity: seq<real>, initial: seq<real>, delta: VectorState)
    requires |velocity| == |initial| == delta.size == |delta.buffer| && 0 < |velocity|
    ensures var r := DeltaUpdateAsWritten(velocity, initial, delta);
      r.size == 0 && r.size != |velocity| &&
      |r.buffer| == |velocity| &&
      forall k :: 0 <= k < |velocity| ==> r.buffer[k] == velocity[k] - initial[k]
  {
  }

  // ---------------------------------------------------------------------------------------------
  // The grid
  // ---------------------------------------------------------------------------------------------

  class Grid {
    const dims: Dimensions
    const store: Storage
    /** The square of m_maxVelocity. */
    var maxVelocitySquared: real

    /**
     * Sized from valid dimensions, with one cell per index, each placed on its bounds and
     * wired to its neighbours, all aliasing the grid's arrays.
     */
    ghost predicate Valid()
      reads store
    {
      dims.Valid() && store.size == dims.Size() && store.Valid() &&
      forall i :: 0 <= i < |store.cells| ==>
        store.cells[i].geometry == dims.CellGeometry(i) && store.cells[i].neighbours == dims.Wiring(i) &&
        store.cells[i].geometry.Proper()
    }

    /** A freshly built cell `c` for index `i`. */
    ghost predicate Built(c: Cell, i: nat)
      reads c
      requires dims.Valid() && i < dims.Size()
    {
      c.store == store && c.index == i &&
      c.geometry == dims.CellGeometry(i) && c.geometry.Proper() && c.neighbours == dims.Wiring(i) &&
      c.cellLabel == Empty && c.status == Inactive && c.particles == [] &&
      c.particleCount == None && c.particlePoolSize == 0
    }

    /** The grid constructor for arguments it accepts. */
    constructor(dims: Dimensions)
      requires dims.Valid()
      ensures this.dims == dims && maxVelocitySquared == 0.0 && Valid() && fresh(store)
      ensures forall i :: 0 <= i < |store.cells| ==> fresh(store.cells[i]) && Built(store.cells[i], i)
      ensures AllZero(store.initialVelocityU) && AllZero(store.velocityU) && AllZero(store.deltaVelocityU)
      ensures AllZero(store.initialVelocityV) && AllZero(store.velocityV) && AllZero(store.deltaVelocityV)
      ensures AllZero(store.pressure)
    {
      this.dims := dims;
      store := new Storage(dims.Size());
      maxVelocitySquared := 0.0;
      new;
      InitGrids();
    }

    /**
     * grid.cpp constructor: a range error unless the area is positive and there is at least
     * one column and one row (grid.cpp:20-21).
     */
    static method Make(width: real, height: real, nColumns: nat, nRows: nat) returns (r: Result<Grid, Fault>)
      ensures r.Failure? <==> !(width > 0.0 && height > 0.0 && nColumns > 0 && nRows > 0)
      ensures r.Failure? ==> r.error == RangeError
      ensures r.Success? ==> fresh(r.value) && fresh(r.value.store) && r.value.Valid() &&
                             r.value.dims == Dimensions(width, height, nColumns, nRows) &&
                             r.value.maxVelocitySquared == 0.0
      ensures r.Success? ==> forall i :: 0 <= i < |r.value.store.cells| ==>
        fresh(r.value.store.cells[i]) && r.value.Built(r.value.store.cells[i], i)
      ensures r.Success? ==> var s := r.value.store;
        AllZero(s.initialVelocityU) && AllZero(s.velocityU) && AllZero(s.deltaVelocityU) &&
        AllZero(s.initialVelocityV) && AllZero(s.velocityV) && AllZero(s.deltaVelocityV) &&
        AllZero(s.pressure)
    {
      if !(width > 0.0 && height > 0.0) {
        return Failure(RangeError);
      }
      if !(nColumns > 0 && nRows > 0) {
        return Failure(RangeError);
      }
      var g := new Grid(Dimensions(width, height, nColumns, nRows));
      return Success(g);
    }

    /** initGrids: one new cell per index, row by row, on its bounds and with its neighbours. */
    method InitGrids()
      requires dims.Valid() && store.size == dims.Size() && store.Arrays() && store.cells == []
      modifies store
      ensures Valid()
      ensures forall i :: 0 <= i < |store.cells| ==> fresh(store.cells[i]) && Built(store.cells[i], i)
    {
      var nC, nR := dims.nColumns, dims.nRows;
      var cells: seq<Cell> := [];
      var y := 0;
      while y < nR
        invariant 0 <= y <= nR && |cells| == dims.RowStart(y) && |cells| <= dims.Size()
        invariant forall i :: 0 <= i < |cells| ==> fresh(cells[i]) && Built(cells[i], i)
      {
        var x := 0;
        while x < nC
          invariant 0 <= x <= nC && |cells| == dims.ToIndex(x, y) && |cells| <= dims.Size()
          invariant forall i :: 0 <= i < |cells| ==> fresh(cells[i]) && Built(cells[i], i)
        {
          IndexInRange(dims, x, y);
          var c := NewCell(x, y);
          cells := cells + [c];
          x := x + 1;
        }
        y := y + 1;
      }
      store.cells := cells;
    }

    /** The cell for column x, row y, on its grid points and wired to its neighbours. */
    method NewCell(x: nat, y: nat) returns (c: Cell)
      requires dims.Valid() && x < dims.nColumns && y < dims.nRows
      ensures dims.ToIndex(x, y) < dims.Size() && fresh(c) && Built(c, dims.ToIndex(x, y))
    {
      var i := dims.ToIndex(x, y);
      var du, dv := dims.DeltaU(), dims.DeltaV();
      CellGeometryAt(dims, x, y);
      var g := MakeGeometry(Vec2(x as real * du, y as real * dv), Vec2((x + 1) as real * du, (y + 1) as real * dv));
      assert dims.CellGeometry(i) == g;
      CellGeometryProper(dims, i);
      c := new Cell(store, i, Vec2(x as real * du, y as real * dv),
                    Vec2((x + 1) as real * du, (y + 1) as real * dv), dims.Wiring(i));
    }

    /**
     * Cell i reads and writes slot i of each of the seven grid arrays, so a value written
     * through a cell is the grid's value and the other way round.
     */
    lemma CellsAliasArrays(i: nat)
      requires Valid() && i < store.size
      ensures store.cells[i].store == store && store.cells[i].index == i && store.cells[i].Sound()
      ensures store.cells[i].InitialVelocityU() == store.initialVelocityU[i]
      ensures store.cells[i].VelocityU() == store.velocityU[i]
      ensures store.cells[i].DeltaVelocityU() == store.deltaVelocityU[i]
      ensures store.cells[i].InitialVelocityV() == store.initialVelocityV[i]
      ensures store.cells[i].VelocityV() == store.velocityV[i]
      ensures store.cells[i].DeltaVelocityV() == store.deltaVelocityV[i]
      ensures store.cells[i].Pressure() == store.pressure[i]
    {
    }

    /** The cell at `index` (grid.cpp cell(index)), unchecked: index must be a cell. */
    function CellAt(index: nat): (c: Cell)
      reads store
      requires Valid() && index < dims.Size()
      ensures c.index == index && c.store == store
      ensures c.geometry == dims.CellGeometry(index) && c.neighbours == dims.Wiring(index)
    {
      store.cells[index]
    }

    /**
     * The cell at column x, row y (grid.cpp cell(x, y)), unchecked: a column past the last one
     * wraps into the rows above, and only an index past the last cell is undefined.
     */
    function CellAtCoordinates(x: nat, y: nat): (c: Cell)
      reads store
      requires Valid() && dims.ToIndex(x, y) < dims.Size()
      ensures c.index == dims.ToIndex(x, y)
      ensures x < dims.nColumns ==> dims.ToCartesian(c.index) == (x, y)
    {
      IndexBeyond(dims, x, y);
      if x < dims.nColumns then IndexRoundTrip(dims, x, y); store.cells[dims.ToIndex(x, y)]
      else store.cells[dims.ToIndex(x, y)]
    }

    /**
     * The cell under a point (grid.cpp cell(point)), unchecked: the point's truncated
     * coordinates must name a cell. Inside the half-open area that cell contains the point.
     */
    function CellAtPoint(p: Vec2): (c: Cell)
      reads store
      requires Valid() && 0.0 <= p.x && 0.0 <= p.y && dims.Locate(p) < dims.Size()
      ensures c.index == dims.Locate(p)
      ensures p.x < dims.width && p.y < dims.height ==> c.geometry.Contains(p)
    {
      LocateInside(dims, p);
      store.cells[dims.Locate(p)]
    }

    /**
     * Samples the field in `us`, `vs` at a point (grid.cpp velocity(point)): zero outside the
     * closed area; otherwise the sample of the cell under the point, which exists for every
     * point of the half-open area.
     */
    function Sample(us: array<real>, vs: array<real>, p: Vec2): (r: Result<Vec2, Fault>)
      reads store, us, vs
      requires Valid() && us.Length == store.size && vs.Length == store.size
      ensures p.x < 0.0 || p.x > dims.width || p.y < 0.0 || p.y > dims.height ==> r == Success(Vec2(0.0, 0.0))
      ensures 0.0 <= p.x < dims.width && 0.0 <= p.y < dims.height ==>
        dims.Locate(p) < store.size && r.Success? && r == store.cells[dims.Locate(p)].Sample(us, vs, p)
    {
      if p.x < 0.0 || p.x > dims.width || p.y < 0.0 || p.y > dims.height then Success(Vec2(0.0, 0.0))
      else
        var i := dims.Locate(p);
        LocateInside(dims, p);
        if i >= store.size then Failure(Undefined) else store.cells[i].Sample(us, vs, p)
    }

    /**
     * A point on the far north edge of the closed area passes the boundary check but has no
     * cell: its index is past the last cell.
     */
    lemma SampleFarNorthEdge(us: array<real>, vs: array<real>, p: Vec2)
      requires Valid() && us.Length == store.size && vs.Length == store.size
      requires 0.0 <= p.x <= dims.width && p.y == dims.height
      ensures Sample(us, vs, p) == Failure(Undefined)
    {
      FarNorthEdge(dims, p);
    }

    /**
     * A point on the far east edge of the closed area passes the boundary check but is not
     * sampled: it names the first cell of the next row, which rejects it with a range error,
     * or, in the top row, an index past the last cell.
     */
    lemma SampleFarEastEdge(us: array<real>, vs: array<real>, p: Vec2)
      requires Valid() && us.Length == store.size && vs.Length == store.size
      requires p.x == dims.width && 0.0 <= p.y < dims.height
      ensures Sample(us, vs, p).Failure?
    {
      FarEastEdge(dims, p);
      var i := dims.Locate(p);
      if i < store.size {
        assert store.cells[i].geometry == dims.CellGeometry(i);
        assert !store.cells[i].geometry.Contains(p);
      }
    }

    /** grid.cpp velocity(point). */
    function Velocity(p: Vec2): Result<Vec2, Fault>
      reads store, store.velocityU, store.velocityV
      requires Valid()
    {
      Sample(store.velocityU, store.velocityV, p)
    }

    /** grid.cpp deltaVelocity(point). */
    function DeltaVelocity(p: Vec2): Result<Vec2, Fault>
      reads store, store.deltaVelocityU, store.deltaVelocityV
      requires Valid()
    {
      Sample(store.deltaVelocityU, store.deltaVelocityV, p)
    }

    /**
     * Samples the field in `us`, `vs` at the centre of the cell at column x, row y: each
     * component is the mean of the cell's own sample and its east or north neighbour's.
     */
    function CentreSample(us: array<real>, vs: array<real>, x: nat, y: nat): (r: Vec2)
      reads store, us, vs
      requires Valid() && us.Length == store.size && vs.Length == store.size
      requires dims.ToIndex(x, y) < dims.Size()
      ensures var c := store.cells[dims.ToIndex(x, y)];
        r == Vec2((us[c.index] + SlotOrZero(us, c.neighbours.east)) / 2.0,
                  (vs[c.index] + SlotOrZero(vs, c.neighbours.north)) / 2.0)
    {
      var c := store.cells[dims.ToIndex(x, y)];
      GeometryLayout(Vec2(c.geometry.minU, c.geometry.minV), Vec2(c.geometry.maxU, c.geometry.maxV));
      InterpolateAtCentre(c.geometry, us[c.index], SlotOrZero(us, c.neighbours.east),
                          vs[c.index], SlotOrZero(vs, c.neighbours.north));
      var s := c.Sample(us, vs, c.geometry.centre);
      s.value
    }

    /** grid.cpp velocity(x, y): the velocity at the centre of a cell, unchecked. */
    function VelocityAtCell(x: nat, y: nat): Vec2
      reads store, store.velocityU, store.velocityV
      requires Valid() && dims.ToIndex(x, y) < dims.Size()
    {
      CentreSample(store.velocityU, store.velocityV, x, y)
    }

    /** grid.cpp deltaVelocity(x, y): the velocity change at the centre of a cell, unchecked. */
    function DeltaVelocityAtCell(x: nat, y: nat): Vec2
      reads store, store.deltaVelocityU, store.deltaVelocityV
      requires Valid() && dims.ToIndex(x, y) < dims.Size()
    {
      CentreSample(store.deltaVelocityU, store.deltaVelocityV, x, y)
    }

    /** The squared speed held in slot `i` of the velocity arrays. */
    function SquaredSpeed(i: nat): real
      reads store.velocityU, store.velocityV
      requires store.Arrays() && i < store.size
    {
      store.velocityU[i] * store.velocityU[i] + store.velocityV[i] * store.velocityV[i]
    }

    /** The largest squared speed over all cells, the value maxVelocityUpdate takes the root of. */
    method MaxSquaredSpeed() returns (m: real)
      requires Valid()
      ensures forall i :: 0 <= i < store.size ==> SquaredSpeed(i) <= m
      ensures exists i :: 0 <= i < store.size && SquaredSpeed(i) == m
      ensures 0.0 <= m
    {
      RowStartMonotone(dims, 0, dims.nRows);
      m := SquaredSpeed(0);
      for i := 1 to store.size
        invariant forall j :: 0 <= j < i ==> SquaredSpeed(j) <= m
        invariant exists j :: 0 <= j < i && SquaredSpeed(j) == m
      {
        if SquaredSpeed(i) > m {
          m := SquaredSpeed(i);
        }
      }
    }

    /** maxVelocityUpdate, recording the square of the maximum speed. */
    method MaxVelocityUpdate()
      requires Valid()
      modifies this`maxVelocitySquared
      ensures forall i :: 0 <= i < store.size ==> SquaredSpeed(i) <= maxVelocitySquared
      ensures exists i :: 0 <= i < store.size && SquaredSpeed(i) == maxVelocitySquared
    {
      var m := MaxSquaredSpeed();
      ghost var w :| 0 <= w < store.size && SquaredSpeed(w) == m;
      maxVelocitySquared := m;
      assert SquaredSpeed(w) == maxVelocitySquared;
    }

    /**
     * deltaVelocityUpdate, as intended: every delta slot becomes the current velocity minus
     * the initial one, and nothing else changes.
     */
    method DeltaVelocityUpdate()
      requires Valid()
      modifies store.deltaVelocityU, store.deltaVelocityV
      ensures forall i :: 0 <= i < store.size ==>
        store.deltaVelocityU[i] == store.velocityU[i] - store.initialVelocityU[i] &&
        store.deltaVelocityV[i] == store.velocityV[i] - store.initialVelocityV[i]
      ensures unchanged(store.velocityU, store.initialVelocityU, store.velocityV, store.initialVelocityV, store.pressure)
    {
      for i := 0 to store.size
        invariant forall j :: 0 <= j < i ==> store.deltaVelocityU[j] == store.velocityU[j] - store.initialVelocityU[j]
      {
        store.deltaVelocityU[i] := store.velocityU[i] - store.initialVelocityU[i];
      }
      for i := 0 to store.size
        invariant forall j :: 0 <= j < store.size ==> store.deltaVelocityU[j] == store.velocityU[j] - store.initialVelocityU[j]
        invariant forall j :: 0 <= j < i ==> store.deltaVelocityV[j] == store.velocityV[j] - store.initialVelocityV[j]
      {
        store.deltaVelocityV[i] := store.velocityV[i] - store.initialVelocityV[i];
      }
    }

    /** resetInitialVelocity: both initial velocity arrays become zero, nothing else changes. */
    method ResetInitialVelocity()
      requires Valid()
      modifies store.initialVelocityU, store.initialVelocityV
      ensures AllZero(store.initialVelocityU) && AllZero(store.initialVelocityV)
      ensures unchanged(store.velocityU, store.deltaVelocityU, store.velocityV, store.deltaVelocityV, store.pressure)
    {
      for i := 0 to store.size
        invariant forall j :: 0 <= j < i ==> store.initialVelocityU[j] == 0.0
      {
        store.initialVelocityU[i] := 0.0;
      }
      for i := 0 to store.size
        invariant AllZero(store.initialVelocityU)
        invariant forall j :: 0 <= j < i ==> store.initialVelocityV[j] == 0.0
      {
        store.initialVelocityV[i] := 0.0;
      }
    }

    /** grid.cpp pressure(index, p): sets the pressure of a cell through it, unchecked. */
    method Pressure(index: nat, p: real)
      requires Valid() && index < store.size
      modifies store.pressure
      ensures store.pressure[..] == old(store.pressure[..])[index := p]
      ensures store.cells[index].Pressure() == p
    {
      store.cells[index].SetPressure(p);
    }

    /**
     * column(i): the cells of column i from the bottom row up; out_of_range past the last
     * column.
     */
    method Column(i: nat) returns (r: Result<seq<Cell>, Fault>)
      requires Valid()
      ensures r.Failure? <==> i >= dims.nColumns
      ensures r.Failure? ==> r.error == OutOfRange
      ensures r.Success? ==> |r.value| == dims.nRows
      ensures r.Success? ==> forall k :: 0 <= k < dims.nRows ==>
        dims.ToIndex(i, k) < store.size && r.value[k] == store.cells[dims.ToIndex(i, k)]
    {
      if !(i < dims.nColumns) {
        return Failure(OutOfRange);
      }
      var d, all, size := dims, store.cells, store.size;
      assert |all| == size == d.Size();
      var cells: seq<Cell> := [];
      var j := i;
      ColumnIndex(d, i, 0);
      while j < size
        invariant |cells| <= d.nRows && j == d.ToIndex(i, |cells|)
        invariant j < size <==> |cells| < d.nRows
        invariant cells == ColumnPrefix(d, all, i, |cells|)
        decreases d.nRows - |cells|
      {
        ColumnIndex(d, i, |cells|);
        cells := cells + [all[j]];
        j := j + d.nColumns;
        ColumnIndex(d, i, |cells|);
      }
      ColumnPrefixCells(d, all, i, |cells|);
      return Success(cells);
    }

    /** row(i): the cells of row i from west to east; out_of_range past the last row. */
    method Row(i: nat) returns (r: Result<seq<Cell>, Fault>)
      requires Valid()
      ensures r.Failure? <==> i >= dims.nRows
      ensures r.Failure? ==> r.error == OutOfRange
      ensures r.Success? ==> |r.value| == dims.nColumns
      ensures r.Success? ==> forall k :: 0 <= k < dims.nColumns ==>
        dims.ToIndex(k, i) < store.size && r.value[k] == store.cells[dims.ToIndex(k, i)]
    {
      if !(i < dims.nRows) {
        return Failure(OutOfRange);
      }
      RowStartWithin(dims, i + 1);
      var cells: seq<Cell> := [];
      var j := dims.ToIndex(0, i);
      while j < dims.ToIndex(0, i + 1)
        invariant dims.ToIndex(0, i) <= j <= dims.ToIndex(0, i + 1) && |cells| == j - dims.ToIndex(0, i)
        invariant forall k :: 0 <= k < |cells| ==> dims.ToIndex(k, i) < store.size && cells[k] == store.cells[dims.ToIndex(k, i)]
      {
        cells := cells + [store.cells[j]];
        j := j + 1;
      }
      return Success(cells);
    }
  }
}
