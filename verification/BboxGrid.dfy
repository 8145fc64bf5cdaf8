/**
 `partition_bbox`: an extent cut into a grid of cells, over the reals, with any rounding
 that keeps order.
 */
module BboxGrid {
  datatype Box = Box(minx: real, miny: real, maxx: real, maxy: real)
  datatype Result = Cells(cells: seq<Box>) | Degenerate | NoCells

  type Rounding = real -> real

  ghost predicate Monotone(round: Rounding) {
    forall a, b :: a <= b ==> round(a) <= round(b)
  }

  /** The k-th of n + 1 grid lines between two bounds; the last is the upper bound itself. */
  function Line(lo: real, hi: real, n: int, k: int): real
    requires n >= 1
  {
    if k == n then hi else lo + (k as real) * ((hi - lo) / (n as real))
  }

  function CellOf(b: Box, nx: int, ny: int, round: Rounding, i: int, j: int): Box
    requires nx >= 1 && ny >= 1
  {
    Box(round(Line(b.minx, b.maxx, nx, i)), round(Line(b.miny, b.maxy, ny, j)),
        round(Line(b.minx, b.maxx, nx, i + 1)), round(Line(b.miny, b.maxy, ny, j + 1)))
  }

  /** The first i cells of row j. */
  function Row(b: Box, nx: int, ny: int, round: Rounding, j: int, i: nat): seq<Box>
    requires nx >= 1 && ny >= 1
  {
    if i == 0 then [] else Row(b, nx, ny, round, j, i - 1) + [CellOf(b, nx, ny, round, i - 1, j)]
  }

  /** The first j rows. */
  function Grid(b: Box, nx: int, ny: int, round: Rounding, j: nat): seq<Box>
    requires nx >= 1 && ny >= 1
  {
    if j == 0 then [] else Grid(b, nx, ny, round, j - 1) + Row(b, nx, ny, round, j - 1, nx)
  }

  /** The far side of a strip, computed from its near side, is the next line. */
  lemma StripEnds(lo: real, hi: real, n: int, k: int)
    requires 0 <= k < n
    ensures var d := (hi - lo) / (n as real);
            var near := lo + (k as real) * d;
            Line(lo, hi, n, k) == near && Line(lo, hi, n, k + 1) == if k == n - 1 then hi else near + d
  {
    var d := (hi - lo) / (n as real);
    assert ((k + 1) as real) * d == (k as real) * d + d;
  }

  method PartitionBbox(b: Box, nx: int, ny: int, round: Rounding) returns (r: Result)
    ensures r.Degenerate? <==> b.maxx <= b.minx || b.maxy <= b.miny
    ensures r.NoCells? <==> !r.Degenerate? && (nx < 1 || ny < 1)
    ensures r.Cells? ==> r.cells == Grid(b, nx, ny, round, ny)
  {
    if b.maxx <= b.minx || b.maxy <= b.miny {
      return Degenerate;
    }
    if nx < 1 || ny < 1 {
      return NoCells;
    }
    var dx, dy := (b.maxx - b.minx) / (nx as real), (b.maxy - b.miny) / (ny as real);
    var cells: seq<Box> := [];
    var j := 0;
    while j < ny
      invariant 0 <= j <= ny && cells == Grid(b, nx, ny, round, j)
    {
      var y0 := b.miny + (j as real) * dy;
      var y1 := if j == ny - 1 then b.maxy else y0 + dy;
      StripEnds(b.miny, b.maxy, ny, j);
      cells := AppendRow(b, nx, ny, round, j, dx, y0, y1, cells);
      j := j + 1;
    }
    return Cells(cells);
  }

  lemma CellHere(b: Box, nx: int, ny: int, round: Rounding, i: nat, j: int, dx: real, y0: real, y1: real)
    requires nx >= 1 && ny >= 1 && i < nx && dx == (b.maxx - b.minx) / (nx as real)
    requires y0 == Line(b.miny, b.maxy, ny, j) && y1 == Line(b.miny, b.maxy, ny, j + 1)
    ensures var x0 := b.minx + (i as real) * dx;
            var x1 := if i == nx - 1 then b.maxx else x0 + dx;
            Box(round(x0), round(y0), round(x1), round(y1)) == CellOf(b, nx, ny, round, i, j)
  {
    StripEnds(b.minx, b.maxx, nx, i);
    var x0 := b.minx + (i as real) * dx;
    var x1 := if i == nx - 1 then b.maxx else x0 + dx;
    assert x0 == Line(b.minx, b.maxx, nx, i) && x1 == Line(b.minx, b.maxx, nx, i + 1);
  }

  lemma RowGrows(b: Box, nx: int, ny: int, round: Rounding, j: int, i: nat, before: seq<Box>)
    requires nx >= 1 && ny >= 1
    ensures before + Row(b, nx, ny, round, j, i + 1) ==
            (before + Row(b, nx, ny, round, j, i)) + [CellOf(b, nx, ny, round, i, j)]
  {
  }

  /** The inner loop: one row of cells. */
  method AppendRow(b: Box, nx: int, ny: int, round: Rounding, j: int, dx: real, y0: real, y1: real, before: seq<Box>)
      returns (cells: seq<Box>)
    requires nx >= 1 && ny >= 1 && dx == (b.maxx - b.minx) / (nx as real)
    requires y0 == Line(b.miny, b.maxy, ny, j) && y1 == Line(b.miny, b.maxy, ny, j + 1)
    ensures cells == before + Row(b, nx, ny, round, j, nx)
  {
    cells := before;
    var i := 0;
    while i < nx
      invariant 0 <= i <= nx && cells == before + Row(b, nx, ny, round, j, i)
    {
      var x0 := b.minx + (i as real) * dx;
      var x1 := if i == nx - 1 then b.maxx else x0 + dx;
      CellHere(b, nx, ny, round, i, j, dx, y0, y1);
      RowGrows(b, nx, ny, round, j, i, before);
      cells := cells + [Box(round(x0), round(y0), round(x1), round(y1))];
      i := i + 1;
    }
  }

  // ---------------------------------------------------------------- where each cell is

  lemma {:induction false} RowAt(b: Box, nx: int, ny: int, round: Rounding, j: int, n: nat, i: nat)
    requires nx >= 1 && ny >= 1 && i < n
    ensures |Row(b, nx, ny, round, j, n)| == n && Row(b, nx, ny, round, j, n)[i] == CellOf(b, nx, ny, round, i, j)
    decreases n
  {
    if n > 1 {
      RowAt(b, nx, ny, round, j, n - 1, if i < n - 1 then i else 0);
    }
  }

  lemma {:induction false} GridSize(b: Box, nx: int, ny: int, round: Rounding, n: nat)
    requires nx >= 1 && ny >= 1
    ensures |Grid(b, nx, ny, round, n)| == n * nx
  {
    if n > 0 {
      GridSize(b, nx, ny, round, n - 1);
      RowAt(b, nx, ny, round, n - 1, nx, 0);
      assert n * nx == (n - 1) * nx + nx;
    }
  }

  lemma RowsBefore(nx: int, j: nat, n: nat, i: nat)
    requires nx >= 1 && j < n && i < nx
    ensures 0 <= j * nx + i < n * nx
  {
    assert (j + 1) * nx <= n * nx;
    assert (j + 1) * nx == j * nx + nx;
  }

  /** Row-major: the cell of column i and row j stands at j * nx + i. */
  lemma {:induction false} CellAt(b: Box, nx: int, ny: int, round: Rounding, n: nat, i: nat, j: nat)
    requires nx >= 1 && ny >= 1 && i < nx && j < n
    ensures |Grid(b, nx, ny, round, n)| == n * nx && 0 <= j * nx + i < n * nx
    ensures Grid(b, nx, ny, round, n)[j * nx + i] == CellOf(b, nx, ny, round, i, j)
    decreases n
  {
    GridSize(b, nx, ny, round, n);
    GridSize(b, nx, ny, round, n - 1);
    RowsBefore(nx, j, n, i);
    if j < n - 1 {
      CellAt(b, nx, ny, round, n - 1, i, j);
    } else {
      RowAt(b, nx, ny, round, j, nx, i);
    }
  }

  /** The cell in column i and row j of the whole grid. */
  function At(b: Box, nx: int, ny: int, round: Rounding, i: nat, j: nat): (c: Box)
    requires nx >= 1 && ny >= 1 && i < nx && j < ny
    ensures c == CellOf(b, nx, ny, round, i, j)
  {
    CellAt(b, nx, ny, round, ny, i, j);
    Grid(b, nx, ny, round, ny)[j * nx + i]
  }

  /** Neighbours share their edges exactly, and the outer edges are those of the rounded extent. */
  lemma NeighboursShareEdges(b: Box, nx: int, ny: int, round: Rounding, i: nat, j: nat)
    requires nx >= 1 && ny >= 1 && i < nx && j < ny
    ensures var c := At(b, nx, ny, round, i, j);
            && (i + 1 < nx ==> c.maxx == At(b, nx, ny, round, i + 1, j).minx)
            && (j + 1 < ny ==> c.maxy == At(b, nx, ny, round, i, j + 1).miny)
            && (i == 0 ==> c.minx == round(b.minx)) && (i == nx - 1 ==> c.maxx == round(b.maxx))
            && (j == 0 ==> c.miny == round(b.miny)) && (j == ny - 1 ==> c.maxy == round(b.maxy))
  {
    StripEnds(b.minx, b.maxx, nx, i);
    StripEnds(b.miny, b.maxy, ny, j);
  }

  function Exact(): Rounding { x => x }

  /** Before rounding all cells are alike: each an nx-th of the width and an ny-th of the height, at its place. */
  lemma CellsAreAlike(b: Box, nx: int, ny: int, i: nat, j: nat)
    requires nx >= 1 && ny >= 1 && i < nx && j < ny
    ensures var c := At(b, nx, ny, Exact(), i, j);
            && (c.maxx - c.minx) * (nx as real) == b.maxx - b.minx
            && (c.maxy - c.miny) * (ny as real) == b.maxy - b.miny
            && (c.minx - b.minx) * (nx as real) == (i as real) * (b.maxx - b.minx)
            && (c.miny - b.miny) * (ny as real) == (j as real) * (b.maxy - b.miny)
  {
    StripIsPart(b.minx, b.maxx, nx, i);
    StripIsPart(b.miny, b.maxy, ny, j);
  }

  lemma StripIsPart(lo: real, hi: real, n: int, k: nat)
    requires k < n
    ensures (Line(lo, hi, n, k + 1) - Line(lo, hi, n, k)) * (n as real) == hi - lo
    ensures (Line(lo, hi, n, k) - lo) * (n as real) == (k as real) * (hi - lo)
  {
    var d, w, m := (hi - lo) / (n as real), hi - lo, n as real;
    assert d * m == w;
    StripEnds(lo, hi, n, k);
    assert ((k as real) * d) * m == (k as real) * (d * m);
    if k == n - 1 {
      assert (k as real) * d == (m - 1.0) * d == m * d - d;
    }
  }

  // ---------------------------------------------------------------- a partition

  lemma ProductAscends(a: real, b: real, d: real)
    requires a <= b && d > 0.0
    ensures a * d <= b * d
  {
  }

  /** n steps of an n-th part cover the whole. */
  lemma StepsCover(w: real, n: int)
    requires n >= 1 && w > 0.0
    ensures w / (n as real) > 0.0 && (n as real) * (w / (n as real)) == w
  {
  }

  /** A line is never to the left of an earlier one. */
  lemma LinesAscend(lo: real, hi: real, n: int, k: int, m: int)
    requires n >= 1 && lo < hi && 0 <= k <= m <= n
    ensures Line(lo, hi, n, k) <= Line(lo, hi, n, m)
  {
    var d := (hi - lo) / (n as real);
    StepsCover(hi - lo, n);
    ProductAscends(k as real, m as real, d);
    ProductAscends(k as real, n as real, d);
  }

  /** The strip a coordinate falls in. */
  ghost predicate InStrip(lo: real, hi: real, n: int, round: Rounding, k: int, x: real)
    requires n >= 1
  {
    round(Line(lo, hi, n, k)) <= x < round(Line(lo, hi, n, k + 1))
  }

  lemma {:induction false} SomeStrip(lo: real, hi: real, n: int, round: Rounding, m: nat, x: real) returns (k: nat)
    requires n >= 1 && 1 <= m <= n
    requires round(lo) <= x < round(Line(lo, hi, n, m))
    ensures k < m && InStrip(lo, hi, n, round, k, x)
    decreases m
  {
    if m == 1 || round(Line(lo, hi, n, m - 1)) <= x {
      k := m - 1;
      assert m == 1 ==> Line(lo, hi, n, 0) == lo;
    } else {
      k := SomeStrip(lo, hi, n, round, m - 1, x);
    }
  }

  lemma OneStrip(lo: real, hi: real, n: int, round: Rounding, k: nat, m: nat, x: real)
    requires n >= 1 && lo < hi && Monotone(round) && k < n && m < n
    requires InStrip(lo, hi, n, round, k, x) && InStrip(lo, hi, n, round, m, x)
    ensures k == m
  {
    if k < m {
      LinesAscend(lo, hi, n, k + 1, m);
    } else if m < k {
      LinesAscend(lo, hi, n, m + 1, k);
    }
  }

  predicate Inside(c: Box, x: real, y: real) { c.minx <= x < c.maxx && c.miny <= y < c.maxy }

  lemma Coordinates(nx: int, n: nat, at: nat) returns (i: nat, j: nat)
    requires nx >= 1 && at < n * nx
    ensures i < nx && j < n && at == j * nx + i
  {
    i, j := at % nx, at / nx;
    assert at == nx * (at / nx) + at % nx;
    Cancels(j, n, nx);
  }

  lemma Cancels(a: int, b: int, c: int)
    requires c >= 1
    ensures a * c < b * c ==> a < b
  {
  }

  /** Every point of the rounded extent, its upper edges left out, lies in exactly one cell. */
  lemma EveryPointInOneCell(b: Box, nx: int, ny: int, round: Rounding, x: real, y: real) returns (at: nat)
    requires b.minx < b.maxx && b.miny < b.maxy && nx >= 1 && ny >= 1 && Monotone(round)
    requires Inside(Box(round(b.minx), round(b.miny), round(b.maxx), round(b.maxy)), x, y)
    ensures var g := Grid(b, nx, ny, round, ny);
            at < |g| && forall k :: 0 <= k < |g| ==> (Inside(g[k], x, y) <==> k == at)
  {
    var i := SomeStrip(b.minx, b.maxx, nx, round, nx, x);
    var j := SomeStrip(b.miny, b.maxy, ny, round, ny, y);
    CellAt(b, nx, ny, round, ny, i, j);
    at := j * nx + i;
    var g := Grid(b, nx, ny, round, ny);
    forall k | 0 <= k < |g|
      ensures Inside(g[k], x, y) <==> k == at
    {
      var i', j' := Coordinates(nx, ny, k);
      CellAt(b, nx, ny, round, ny, i', j');
      if Inside(g[k], x, y) {
        OneStrip(b.minx, b.maxx, nx, round, i, i', x);
        OneStrip(b.miny, b.maxy, ny, round, j, j', y);
      }
    }
  }

  lemma {:induction false} CellInExtent(b: Box, nx: int, ny: int, round: Rounding, k: nat, x: real, y: real)
    requires b.minx < b.maxx && b.miny < b.maxy && nx >= 1 && ny >= 1 && Monotone(round)
    requires k < |Grid(b, nx, ny, round, ny)| && Inside(Grid(b, nx, ny, round, ny)[k], x, y)
    ensures Inside(Box(round(b.minx), round(b.miny), round(b.maxx), round(b.maxy)), x, y)
  {
    GridSize(b, nx, ny, round, ny);
    var i, j := Coordinates(nx, ny, k);
    CellAt(b, nx, ny, round, ny, i, j);
    LinesAscend(b.minx, b.maxx, nx, 0, i);
    LinesAscend(b.minx, b.maxx, nx, i + 1, nx);
    LinesAscend(b.miny, b.maxy, ny, 0, j);
    LinesAscend(b.miny, b.maxy, ny, j + 1, ny);
  }
}
