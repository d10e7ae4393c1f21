/**
 * The regular-grid builder of honeycomb-core.  A grid descriptor holds the
 * user's choice of two of three characteristics (cells per axis, length per
 * cell, total length); parsing turns it into a cell count and a cell size
 * per axis.  The generators give the β images of every dart of a grid of
 * quads (4 darts per cell) or of quads split into two triangles (6 darts per
 * cell).  Cells are numbered left to right, then bottom to top, and the
 * darts of cell (ix, iy) come right after those of the previous cell.
 */
module Grid {
  import opened Wrappers
  import opened Betas
  import opened TwoMap

  // ---------------------------------------------------------------- descriptor

  datatype Axis = X | Y | Z

  /** A value per axis, as the source's three-element arrays. */
  datatype Triple<T> = Triple(x: T, y: T, z: T)
  {
    function Get(a: Axis): T
    {
      match a
      case X => x
      case Y => y
      case Z => z
    }
  }

  /**
   * The single-axis setter shared by the three characteristics: an unset
   * characteristic becomes `zero` on the two other axes; a set one keeps them.
   */
  function SetAxis<T>(f: Option<Triple<T>>, a: Axis, v: T, zero: T): (r: Option<Triple<T>>)
    ensures r.Some? && r.value.Get(a) == v
    ensures forall b: Axis :: b != a ==> r.value.Get(b) == (if f.Some? then f.value.Get(b) else zero)
  {
    var t := if f.Some? then f.value else Triple(zero, zero, zero);
    match a
    case X => Some(t.(x := v))
    case Y => Some(t.(y := v))
    case Z => Some(t.(z := v))
  }

  /** Setting the same axis twice keeps the second value only. */
  lemma SetAxisTwice<T>(f: Option<Triple<T>>, a: Axis, v: T, w: T, zero: T)
    ensures SetAxis(SetAxis(f, a, v, zero), a, w, zero) == SetAxis(f, a, w, zero)
  {
    var r := SetAxis(SetAxis(f, a, v, zero), a, w, zero);
    var s := SetAxis(f, a, w, zero);
    assert r.value.Get(X) == s.value.Get(X) && r.value.Get(Y) == s.value.Get(Y) && r.value.Get(Z) == s.value.Get(Z);
  }

  /** Setters of two different axes commute, set or unset. */
  lemma SetAxesCommute<T>(f: Option<Triple<T>>, a: Axis, v: T, b: Axis, w: T, zero: T)
    requires a != b
    ensures SetAxis(SetAxis(f, a, v, zero), b, w, zero) == SetAxis(SetAxis(f, b, w, zero), a, v, zero)
  {
    var r := SetAxis(SetAxis(f, a, v, zero), b, w, zero);
    var s := SetAxis(SetAxis(f, b, w, zero), a, v, zero);
    assert r.value.Get(X) == s.value.Get(X) && r.value.Get(Y) == s.value.Get(Y) && r.value.Get(Z) == s.value.Get(Z);
  }

  /** The grid descriptor: a value the setters consume and return updated. */
  datatype GridDescriptor = GridDescriptor(
    origin: Vertex2,
    nCells: Option<Triple<nat>>,
    lenPerCell: Option<Triple<real>>,
    lens: Option<Triple<real>>,
    splitQuads: bool)
  {
    /** Sets the cell counts of all three axes. */
    function WithNCells(v: Triple<nat>): (r: GridDescriptor)
      ensures r.nCells == Some(v)
      ensures r.origin == origin && r.lenPerCell == lenPerCell && r.lens == lens && r.splitQuads == splitQuads
    {
      this.(nCells := Some(v))
    }

    /** Sets the cell count of one axis (`n_cells_x`, `n_cells_y`, `n_cells_z`). */
    function WithNCellsAxis(a: Axis, v: nat): (r: GridDescriptor)
      ensures r.nCells.Some? && r.nCells.value.Get(a) == v
      ensures forall b: Axis :: b != a ==> r.nCells.value.Get(b) == (if nCells.Some? then nCells.value.Get(b) else 0)
      ensures r.origin == origin && r.lenPerCell == lenPerCell && r.lens == lens && r.splitQuads == splitQuads
    {
      this.(nCells := SetAxis(nCells, a, v, 0))
    }

    /** Sets the cell lengths of all three axes. */
    function WithLenPerCell(v: Triple<real>): (r: GridDescriptor)
      ensures r.lenPerCell == Some(v)
      ensures r.origin == origin && r.nCells == nCells && r.lens == lens && r.splitQuads == splitQuads
    {
      this.(lenPerCell := Some(v))
    }

    /** Sets the cell length of one axis (`len_per_cell_x`, ...). */
    function WithLenPerCellAxis(a: Axis, v: real): (r: GridDescriptor)
      ensures r.lenPerCell.Some? && r.lenPerCell.value.Get(a) == v
      ensures forall b: Axis :: b != a ==> r.lenPerCell.value.Get(b) == (if lenPerCell.Some? then lenPerCell.value.Get(b) else 0.0)
      ensures r.origin == origin && r.nCells == nCells && r.lens == lens && r.splitQuads == splitQuads
    {
      this.(lenPerCell := SetAxis(lenPerCell, a, v, 0.0))
    }

    /** Sets the total lengths of all three axes. */
    function WithLens(v: Triple<real>): (r: GridDescriptor)
      ensures r.lens == Some(v)
      ensures r.origin == origin && r.nCells == nCells && r.lenPerCell == lenPerCell && r.splitQuads == splitQuads
    {
      this.(lens := Some(v))
    }

    /** Sets the total length of one axis (`lens_x`, ...). */
    function WithLensAxis(a: Axis, v: real): (r: GridDescriptor)
      ensures r.lens.Some? && r.lens.value.Get(a) == v
      ensures forall b: Axis :: b != a ==> r.lens.value.Get(b) == (if lens.Some? then lens.value.Get(b) else 0.0)
      ensures r.origin == origin && r.nCells == nCells && r.lenPerCell == lenPerCell && r.splitQuads == splitQuads
    {
      this.(lens := SetAxis(lens, a, v, 0.0))
    }

    function WithOrigin(o: Vertex2): (r: GridDescriptor)
      ensures r.origin == o
      ensures r.nCells == nCells && r.lenPerCell == lenPerCell && r.lens == lens && r.splitQuads == splitQuads
    {
      this.(origin := o)
    }

    function WithSplitQuads(split: bool): (r: GridDescriptor)
      ensures r.splitQuads == split
      ensures r.origin == origin && r.nCells == nCells && r.lenPerCell == lenPerCell && r.lens == lens
    {
      this.(splitQuads := split)
    }
  }

  /** Building a descriptor from nothing with the x then the y setter leaves z at zero. */
  lemma SettersFromDefault(d: GridDescriptor, nx: nat, ny: nat)
    requires d.nCells.None?
    ensures d.WithNCellsAxis(X, nx).WithNCellsAxis(Y, ny).nCells == Some(Triple(nx, ny, 0))
  {
    var r := d.WithNCellsAxis(X, nx).WithNCellsAxis(Y, ny).nCells;
    assert r.value.Get(X) == nx && r.value.Get(Y) == ny && r.value.Get(Z) == 0;
  }

  // ---------------------------------------------------------------- parsing

  datatype BuilderError = InvalidGridParameters(msg: string) | MissingGridParameters

  /** What the grid generators need: origin, cells per axis and cell size per axis. */
  datatype GridParams = GridParams(origin: Vertex2, nx: nat, ny: nat, lenX: real, lenY: real)

  const LenPerXMsg := "length per x cell is null or negative"
  const LenPerYMsg := "length per y cell is null or negative"
  const LenXMsg := "grid length along x is null or negative"
  const LenYMsg := "grid length along y is null or negative"

  /** The smallest integer not below r. */
  function Ceil(r: real): (c: int)
    ensures c as real - 1.0 < r <= c as real
  {
    var f := r.Floor;
    if f as real == r then f else f + 1
  }

  /** Which pair of characteristics a descriptor is built from, in the source's match order. */
  datatype Source = CellsAndCellLens | CellsAndLens | CellLensAndLens | Missing

  function SourceOf(d: GridDescriptor): (s: Source)
    ensures s == Missing <==>
      !(d.nCells.Some? && d.lenPerCell.Some?) && !(d.nCells.Some? && d.lens.Some?) && !(d.lenPerCell.Some? && d.lens.Some?)
  {
    if d.nCells.Some? && d.lenPerCell.Some? then CellsAndCellLens
    else if d.nCells.Some? && d.lens.Some? then CellsAndLens
    else if d.lenPerCell.Some? && d.lens.Some? then CellLensAndLens
    else Missing
  }

  /** The lengths the parser checks, each with its message, in checking order. */
  function LengthChecks(d: GridDescriptor): seq<(real, string)>
  {
    match SourceOf(d)
    case CellsAndCellLens => [(d.lenPerCell.value.x, LenPerXMsg), (d.lenPerCell.value.y, LenPerYMsg)]
    case CellsAndLens => [(d.lens.value.x, LenXMsg), (d.lens.value.y, LenYMsg)]
    case CellLensAndLens =>
      [(d.lenPerCell.value.x, LenPerXMsg), (d.lenPerCell.value.y, LenPerYMsg),
       (d.lens.value.x, LenXMsg), (d.lens.value.y, LenYMsg)]
    case Missing => []
  }

  /** The message of the first check whose length is zero or negative. */
  function FirstInvalid(checks: seq<(real, string)>): (m: Option<string>)
    ensures m.None? <==> forall k :: 0 <= k < |checks| ==> checks[k].0 > 0.0
  {
    if checks == [] then None
    else if checks[0].0 <= 0.0 then Some(checks[0].1)
    else FirstInvalid(checks[1..])
  }

  /**
   * `parse_2d`: the three accepted pairs of characteristics, in match order
   * (cells and cell lengths win over everything; the total lengths are then
   * ignored), each length checked positive, x before y.  When cell lengths
   * and total lengths are given, the cell count is the ceiling of their ratio.
   */
  function Parse2D(d: GridDescriptor): (r: Result<GridParams, BuilderError>)
    requires SourceOf(d) == CellsAndLens ==> d.nCells.value.x > 0 && d.nCells.value.y > 0
    ensures r == Err(MissingGridParameters) <==> SourceOf(d) == Missing
    ensures r.Err? && SourceOf(d) != Missing ==> r.error.InvalidGridParameters?
    ensures r.Ok? ==> r.value.origin == d.origin && r.value.lenX > 0.0 && r.value.lenY > 0.0
    ensures r.Ok? && d.nCells.Some? ==> r.value.nx == d.nCells.value.x && r.value.ny == d.nCells.value.y
    ensures r.Ok? && d.lenPerCell.Some? ==> r.value.lenX == d.lenPerCell.value.x && r.value.lenY == d.lenPerCell.value.y
    ensures r.Ok? && SourceOf(d) == CellsAndLens ==>
      r.value.nx as real * r.value.lenX == d.lens.value.x && r.value.ny as real * r.value.lenY == d.lens.value.y
    ensures r.Ok? && SourceOf(d) == CellLensAndLens ==>
      (r.value.nx - 1) as real * r.value.lenX < d.lens.value.x <= r.value.nx as real * r.value.lenX
      && (r.value.ny - 1) as real * r.value.lenY < d.lens.value.y <= r.value.ny as real * r.value.lenY
  {
    if d.nCells.Some? && d.lenPerCell.Some? then
      var lpx, lpy := d.lenPerCell.value.x, d.lenPerCell.value.y;
      if lpx <= 0.0 then Err(InvalidGridParameters(LenPerXMsg))
      else if lpy <= 0.0 then Err(InvalidGridParameters(LenPerYMsg))
      else Ok(GridParams(d.origin, d.nCells.value.x, d.nCells.value.y, lpx, lpy))
    else if d.nCells.Some? && d.lens.Some? then
      var nx, ny := d.nCells.value.x, d.nCells.value.y;
      var lx, ly := d.lens.value.x, d.lens.value.y;
      if lx <= 0.0 then Err(InvalidGridParameters(LenXMsg))
      else if ly <= 0.0 then Err(InvalidGridParameters(LenYMsg))
      else Ok(GridParams(d.origin, nx, ny, lx / nx as real, ly / ny as real))
    else if d.lenPerCell.Some? && d.lens.Some? then
      var lpx, lpy := d.lenPerCell.value.x, d.lenPerCell.value.y;
      var lx, ly := d.lens.value.x, d.lens.value.y;
      if lpx <= 0.0 then Err(InvalidGridParameters(LenPerXMsg))
      else if lpy <= 0.0 then Err(InvalidGridParameters(LenPerYMsg))
      else if lx <= 0.0 then Err(InvalidGridParameters(LenXMsg))
      else if ly <= 0.0 then Err(InvalidGridParameters(LenYMsg))
      else
        var nx, ny := Ceil(lx / lpx), Ceil(ly / lpy);
        CeilCover(lx, lpx);
        CeilCover(ly, lpy);
        Ok(GridParams(d.origin, nx, ny, lpx, lpy))
    else Err(MissingGridParameters)
  }

  /** The ceiling of l / p cells of size p cover l, and one cell fewer does not. */
  lemma CeilCover(l: real, p: real)
    requires l > 0.0 && p > 0.0
    ensures Ceil(l / p) >= 1
    ensures (Ceil(l / p) - 1) as real * p < l <= Ceil(l / p) as real * p
  {
    var q := l / p;
    var c := Ceil(q) as real;
    assert q * p == l;
    assert c - 1.0 < q <= c;
    assert (c - 1.0) * p < q * p;
    assert q * p <= c * p;
  }

  /**
   * An accepted pair of characteristics is rejected exactly when one of the
   * lengths it uses is zero or negative, and the message names the first such
   * length in checking order.
   */
  lemma Parse2DReportsFirstInvalid(d: GridDescriptor)
    requires SourceOf(d) == CellsAndLens ==> d.nCells.value.x > 0 && d.nCells.value.y > 0
    requires SourceOf(d) != Missing
    ensures Parse2D(d).Err? <==> FirstInvalid(LengthChecks(d)).Some?
    ensures Parse2D(d).Err? ==> Parse2D(d).error == InvalidGridParameters(FirstInvalid(LengthChecks(d)).value)
  {
    var cs := LengthChecks(d);
    if SourceOf(d) == CellLensAndLens {
      assert cs[1..][1..] == cs[2..] && cs[2..][1..] == cs[3..] && cs[3..][1..] == [];
      assert FirstInvalid(cs[3..]) == (if cs[3].0 <= 0.0 then Some(cs[3].1) else None);
      assert FirstInvalid(cs[2..]) == (if cs[2].0 <= 0.0 then Some(cs[2].1) else FirstInvalid(cs[3..]));
    } else {
      assert cs[1..][1..] == [];
    }
  }

  /** The third characteristic is never read: z components do not change the outcome. */
  lemma Parse2DIgnoresZ(d: GridDescriptor, e: GridDescriptor)
    requires SourceOf(d) == CellsAndLens ==> d.nCells.value.x > 0 && d.nCells.value.y > 0
    requires e.origin == d.origin
    requires e.nCells.Some? == d.nCells.Some? && e.lenPerCell.Some? == d.lenPerCell.Some? && e.lens.Some? == d.lens.Some?
    requires d.nCells.Some? ==> e.nCells.value.x == d.nCells.value.x && e.nCells.value.y == d.nCells.value.y
    requires d.lenPerCell.Some? ==> e.lenPerCell.value.x == d.lenPerCell.value.x && e.lenPerCell.value.y == d.lenPerCell.value.y
    requires d.lens.Some? ==> e.lens.value.x == d.lens.value.x && e.lens.value.y == d.lens.value.y
    ensures Parse2D(e) == Parse2D(d)
  {
  }

  /** With cell counts and cell lengths given, the total lengths are ignored. */
  lemma Parse2DIgnoresLens(d: GridDescriptor, lens: Option<Triple<real>>)
    requires d.nCells.Some? && d.lenPerCell.Some?
    ensures Parse2D(d.(lens := lens)) == Parse2D(d)
  {
  }

  // ---------------------------------------------------------------- generators

  /** The two cell patterns: a quad per cell, or two triangles per cell. */
  datatype Pattern = Squares | Triangles

  function DartsPerCell(p: Pattern): nat
  {
    if p == Squares then 4 else 6
  }

  /**
   * a · b as repeated addition.  Dart offsets are written with it so that the
   * proofs below reason about sums only; MulIsProduct ties it to `*`.
   */
  function Mul(a: nat, b: nat): nat
  {
    if b == 0 then 0 else Mul(a, b - 1) + a
  }

  lemma {:induction false} MulAdd(a: nat, x: nat, y: nat)
    ensures Mul(a, x + y) == Mul(a, x) + Mul(a, y)
  {
    if y > 0 {
      MulAdd(a, x, y - 1);
    }
  }

  lemma {:induction false} MulIsProduct(a: nat, b: nat)
    ensures Mul(a, b) == a * b
  {
    if b > 0 {
      MulIsProduct(a, b - 1);
    }
  }

  /** Euclidean division of x < k·n by k: a quotient below n and a remainder below k. */
  lemma Split(x: nat, k: nat, n: nat) returns (q: nat, r: nat)
    requires x < k * n
    ensures q < n && r < k && x == k * q + r
  {
    q := x / k;
    r := x % k;
  }

  /** Dart j (0-based) of cell (ix, iy) in an nx-wide grid: 1 + k·ix + k·nx·iy + j. */
  function CellDart(p: Pattern, nx: nat, ix: nat, iy: nat, j: nat): nat
  {
    1 + Mul(DartsPerCell(p), Mul(nx, iy) + ix) + j
  }

  /** The same dart of the cell on the left is k lower, of the cell below k·nx lower. */
  lemma CellDartNeighbours(p: Pattern, nx: nat, ix: nat, iy: nat, j: nat)
    ensures ix > 0 ==> CellDart(p, nx, ix, iy, j) == CellDart(p, nx, ix - 1, iy, j) + DartsPerCell(p)
    ensures iy > 0 ==> CellDart(p, nx, ix, iy, j) == CellDart(p, nx, ix, iy - 1, j) + (if p == Squares then 4 * nx else 6 * nx)
  {
    var k := DartsPerCell(p);
    if iy > 0 {
      MulAdd(k, Mul(nx, iy - 1) + ix, nx);
      MulIsProduct(k, nx);
    }
  }

  /** The β images of the four darts of a quad cell: its bottom, right, top and left sides. */
  function SquareCell(nx: nat, ny: nat, ix: nat, iy: nat): (r: seq<DartBetas>)
    ensures |r| == 4
  {
    var d1 := CellDart(Squares, nx, ix, iy, 0);
    var d2, d3, d4 := d1 + 1, d1 + 2, d1 + 3;
    CellDartNeighbours(Squares, nx, ix, iy, 0);
    [ DartBetas(d4, d2, if iy == 0 then 0 else d3 - 4 * nx),
      DartBetas(d1, d3, if ix == nx - 1 then 0 else d2 + 6),
      DartBetas(d2, d4, if iy == ny - 1 then 0 else d1 + 4 * nx),
      DartBetas(d3, d1, if ix == 0 then 0 else d4 - 6) ]
  }

  /**
   * The β images of the six darts of a split cell: d1 (bottom), d2 (diagonal)
   * and d3 (left) bound the lower-left triangle, d4 (diagonal), d5 (right)
   * and d6 (top) the upper-right one.
   */
  function TriangleCell(nx: nat, ny: nat, ix: nat, iy: nat): (r: seq<DartBetas>)
    ensures |r| == 6
  {
    var d1 := CellDart(Triangles, nx, ix, iy, 0);
    var d2, d3, d4, d5, d6 := d1 + 1, d1 + 2, d1 + 3, d1 + 4, d1 + 5;
    CellDartNeighbours(Triangles, nx, ix, iy, 0);
    [ DartBetas(d3, d2, if iy == 0 then 0 else d6 - 6 * nx),
      DartBetas(d1, d3, d4),
      DartBetas(d2, d1, if ix == 0 then 0 else d5 - 6),
      DartBetas(d6, d5, d2),
      DartBetas(d4, d6, if ix == nx - 1 then 0 else d3 + 6),
      DartBetas(d5, d4, if iy == ny - 1 then 0 else d1 + 6 * nx) ]
  }

  function CellBetas(p: Pattern, nx: nat, ny: nat, ix: nat, iy: nat): (r: seq<DartBetas>)
    ensures |r| == DartsPerCell(p)
  {
    if p == Squares then SquareCell(nx, ny, ix, iy) else TriangleCell(nx, ny, ix, iy)
  }

  /** The per-cell generator of a pattern, as a function of the cell (ix, iy). */
  function CellFn(p: Pattern, nx: nat, ny: nat): (nat, nat) -> seq<DartBetas>
  {
    (ix: nat, iy: nat) => CellBetas(p, nx, ny, ix, iy)
  }

  /** The rows of cells 0 .. m - 1 of grid row iy, left to right (the inner flat_map). */
  function RowCells(cell: (nat, nat) -> seq<DartBetas>, iy: nat, m: nat): seq<DartBetas>
  {
    if m == 0 then [] else RowCells(cell, iy, m - 1) + cell(m - 1, iy)
  }

  /** The rows of grid rows 0 .. m - 1 of an nx-wide grid, bottom to top (the outer flat_map). */
  function GridCells(cell: (nat, nat) -> seq<DartBetas>, nx: nat, m: nat): seq<DartBetas>
  {
    if m == 0 then [] else GridCells(cell, nx, m - 1) + RowCells(cell, m - 1, nx)
  }

  /** Every cell contributes k rows. */
  ghost predicate Uniform(cell: (nat, nat) -> seq<DartBetas>, k: nat)
  {
    forall ix, iy :: |cell(ix, iy)| == k
  }

  lemma {:induction false} RowCellsLength(cell: (nat, nat) -> seq<DartBetas>, k: nat, iy: nat, m: nat)
    requires Uniform(cell, k)
    ensures |RowCells(cell, iy, m)| == Mul(k, m)
  {
    if m > 0 {
      RowCellsLength(cell, k, iy, m - 1);
      assert |cell(m - 1, iy)| == k;
    }
  }

  lemma {:induction false} GridCellsLength(cell: (nat, nat) -> seq<DartBetas>, k: nat, nx: nat, m: nat)
    requires Uniform(cell, k)
    ensures |GridCells(cell, nx, m)| == Mul(k, Mul(nx, m))
  {
    if m > 0 {
      GridCellsLength(cell, k, nx, m - 1);
      RowCellsLength(cell, k, m - 1, nx);
      MulAdd(k, Mul(nx, m - 1), nx);
    }
  }

  /** `generate_square_beta_values`: the β images of darts 1, 2, ... of an nx × ny quad grid. */
  function GenerateSquareBetaValues(nx: nat, ny: nat): (r: seq<DartBetas>)
    ensures |r| == 4 * (nx * ny)
  {
    GridCellsLength(CellFn(Squares, nx, ny), 4, nx, ny);
    MulIsProduct(nx, ny);
    MulIsProduct(4, nx * ny);
    GridCells(CellFn(Squares, nx, ny), nx, ny)
  }

  /** `generate_tris_beta_values`: the β images of darts 1, 2, ... of an nx × ny split grid. */
  function GenerateTrisBetaValues(nx: nat, ny: nat): (r: seq<DartBetas>)
    ensures |r| == 6 * (nx * ny)
  {
    GridCellsLength(CellFn(Triangles, nx, ny), 6, nx, ny);
    MulIsProduct(nx, ny);
    MulIsProduct(6, nx * ny);
    GridCells(CellFn(Triangles, nx, ny), nx, ny)
  }

  /** The table a grid builder installs: the null dart, then the generated rows for darts 1, 2, ... */
  function GridTable(p: Pattern, nx: nat, ny: nat): (t: BetaTable)
    ensures |t| == 1 + DartsPerCell(p) * (nx * ny)
    ensures t == [FreeRow] + GridCells(CellFn(p, nx, ny), nx, ny)
  {
    [FreeRow] + (if p == Squares then GenerateSquareBetaValues(nx, ny) else GenerateTrisBetaValues(nx, ny))
  }

  /** Cell ix of a row starts right after the cells on its left. */
  lemma {:induction false} RowCellsIndex(cell: (nat, nat) -> seq<DartBetas>, iy: nat, m: nat, ix: nat, j: nat)
    requires ix < m && j < |cell(ix, iy)|
    ensures |RowCells(cell, iy, ix)| + j < |RowCells(cell, iy, m)|
    ensures RowCells(cell, iy, m)[|RowCells(cell, iy, ix)| + j] == cell(ix, iy)[j]
  {
    var prev := RowCells(cell, iy, m - 1);
    assert RowCells(cell, iy, m) == prev + cell(m - 1, iy);
    if ix < m - 1 {
      RowCellsIndex(cell, iy, m - 1, ix, j);
    }
  }

  /** Cell (ix, iy) of the grid starts right after the rows below it and the cells on its left. */
  lemma {:induction false} GridCellsIndex(cell: (nat, nat) -> seq<DartBetas>, nx: nat, m: nat, ix: nat, iy: nat, j: nat)
    requires ix < nx && iy < m && j < |cell(ix, iy)|
    ensures |GridCells(cell, nx, iy)| + |RowCells(cell, iy, ix)| + j < |GridCells(cell, nx, m)|
    ensures GridCells(cell, nx, m)[|GridCells(cell, nx, iy)| + |RowCells(cell, iy, ix)| + j] == cell(ix, iy)[j]
  {
    var prev := GridCells(cell, nx, m - 1);
    assert GridCells(cell, nx, m) == prev + RowCells(cell, m - 1, nx);
    if iy < m - 1 {
      GridCellsIndex(cell, nx, m - 1, ix, iy, j);
    } else {
      RowCellsIndex(cell, iy, nx, ix, j);
    }
  }

  /** Row j of cell (ix, iy) sits at k·(nx·iy + ix) + j in the rows of a grid of k-row cells. */
  lemma GridCellsAt(cell: (nat, nat) -> seq<DartBetas>, k: nat, nx: nat, ny: nat, ix: nat, iy: nat, j: nat)
    requires Uniform(cell, k) && ix < nx && iy < ny && j < k
    ensures Mul(k, Mul(nx, iy) + ix) + j < |GridCells(cell, nx, ny)|
    ensures GridCells(cell, nx, ny)[Mul(k, Mul(nx, iy) + ix) + j] == cell(ix, iy)[j]
  {
    assert |cell(ix, iy)| == k;
    GridCellsIndex(cell, nx, ny, ix, iy, j);
    GridCellsOffset(cell, k, nx, ix, iy);
  }

  /** The cells before (ix, iy) hold k·(nx·iy + ix) rows. */
  lemma GridCellsOffset(cell: (nat, nat) -> seq<DartBetas>, k: nat, nx: nat, ix: nat, iy: nat)
    requires Uniform(cell, k)
    ensures |GridCells(cell, nx, iy)| + |RowCells(cell, iy, ix)| == Mul(k, Mul(nx, iy) + ix)
  {
    GridCellsLength(cell, k, nx, iy);
    RowCellsLength(cell, k, iy, ix);
    OffsetSum(k, Mul(nx, iy), ix, |GridCells(cell, nx, iy)|, |RowCells(cell, iy, ix)|);
  }

  lemma OffsetSum(k: nat, x: nat, y: nat, below: nat, left: nat)
    requires below == Mul(k, x) && left == Mul(k, y)
    ensures Mul(k, x + y) == below + left
  {
    MulAdd(k, x, y);
  }

  /** Dart j of cell (ix, iy) is a dart of the grid table, and its row is the cell's j-th. */
  lemma GridTableIndex(p: Pattern, nx: nat, ny: nat, ix: nat, iy: nat, j: nat)
    requires ix < nx && iy < ny && j < DartsPerCell(p)
    ensures 0 < CellDart(p, nx, ix, iy, j) < |GridTable(p, nx, ny)|
    ensures GridTable(p, nx, ny)[CellDart(p, nx, ix, iy, j)] == CellBetas(p, nx, ny, ix, iy)[j]
  {
    var k := DartsPerCell(p);
    var cell := CellFn(p, nx, ny);
    assert Uniform(cell, k);
    GridCellsAt(cell, k, nx, ny, ix, iy, j);
    var rows := GridCells(cell, nx, ny);
    var o := Mul(k, Mul(nx, iy) + ix) + j;
    assert CellDart(p, nx, ix, iy, j) == 1 + o;
    assert GridTable(p, nx, ny) == [FreeRow] + rows;
    assert ([FreeRow] + rows)[1 + o] == rows[o];
  }

  /** Every non-null dart of the grid table is dart j of some cell (ix, iy). */
  lemma DartCell(p: Pattern, nx: nat, ny: nat, d: nat) returns (ix: nat, iy: nat, j: nat)
    requires 0 < d < |GridTable(p, nx, ny)|
    ensures ix < nx && iy < ny && j < DartsPerCell(p)
    ensures d == CellDart(p, nx, ix, iy, j)
  {
    var k := DartsPerCell(p);
    MulIsProduct(nx, ny);
    MulIsProduct(k, nx * ny);
    var c;
    c, j := Split(d - 1, k, nx * ny);
    iy, ix := Split(c, nx, ny);
    MulIsProduct(nx, iy);
    MulIsProduct(k, nx * iy + ix);
  }

  // ---------------------------------------------------------------- grid topology

  /** Where a dart sits: dart j of cell (ix, iy). */
  datatype Place = Place(ix: nat, iy: nat, j: nat)

  /** The position, within its cell, of the dart β1 leads to: round the quad, or round its triangle. */
  function NextInFace(p: Pattern, j: nat): nat
  {
    if p == Squares then (if j == 3 then 0 else j + 1)
    else if j == 2 then 0
    else if j == 5 then 3
    else j + 1
  }

  /** The position, within its cell, of the dart β0 leads to. */
  function PrevInFace(p: Pattern, j: nat): nat
  {
    if p == Squares then (if j == 0 then 3 else j - 1)
    else if j == 0 then 2
    else if j == 3 then 5
    else j - 1
  }

  /**
   * The dart on the other side of the edge of dart j of cell (ix, iy), or
   * none on the grid's boundary.  A quad's sides are bottom, right, top, left;
   * a split cell's are bottom, diagonal, left (lower triangle) and diagonal,
   * right, top (upper triangle).
   */
  function Across(p: Pattern, nx: nat, ny: nat, ix: nat, iy: nat, j: nat): Option<Place>
  {
    if p == Squares then
      if j == 0 then (if iy == 0 then None else Some(Place(ix, iy - 1, 2)))
      else if j == 1 then (if ix + 1 == nx then None else Some(Place(ix + 1, iy, 3)))
      else if j == 2 then (if iy + 1 == ny then None else Some(Place(ix, iy + 1, 0)))
      else (if ix == 0 then None else Some(Place(ix - 1, iy, 1)))
    else
      if j == 0 then (if iy == 0 then None else Some(Place(ix, iy - 1, 5)))
      else if j == 1 then Some(Place(ix, iy, 3))
      else if j == 2 then (if ix == 0 then None else Some(Place(ix - 1, iy, 4)))
      else if j == 3 then Some(Place(ix, iy, 1))
      else if j == 4 then (if ix + 1 == nx then None else Some(Place(ix + 1, iy, 2)))
      else (if iy + 1 == ny then None else Some(Place(ix, iy + 1, 0)))
  }

  /** The dart at a place, or the null dart for none. */
  function PlaceDart(p: Pattern, nx: nat, o: Option<Place>): nat
  {
    if o.None? then 0 else CellDart(p, nx, o.value.ix, o.value.iy, o.value.j)
  }

  /** Going across an edge lands in the grid, and going back across returns. */
  lemma AcrossIsInvolution(p: Pattern, nx: nat, ny: nat, ix: nat, iy: nat, j: nat)
    requires ix < nx && iy < ny && j < DartsPerCell(p)
    ensures Across(p, nx, ny, ix, iy, j).Some? ==>
      var q := Across(p, nx, ny, ix, iy, j).value;
      q.ix < nx && q.iy < ny && q.j < DartsPerCell(p) && Across(p, nx, ny, q.ix, q.iy, q.j) == Some(Place(ix, iy, j))
  {
  }

  /** Within one cell's rows, β1 and β0 go round each face and β2 goes across each edge. */
  lemma CellRows(p: Pattern, nx: nat, ny: nat, ix: nat, iy: nat, j: nat)
    requires ix < nx && iy < ny && j < DartsPerCell(p)
    ensures CellBetas(p, nx, ny, ix, iy)[j].b1 == CellDart(p, nx, ix, iy, NextInFace(p, j))
    ensures CellBetas(p, nx, ny, ix, iy)[j].b0 == CellDart(p, nx, ix, iy, PrevInFace(p, j))
    ensures CellBetas(p, nx, ny, ix, iy)[j].b2 == PlaceDart(p, nx, Across(p, nx, ny, ix, iy, j))
  {
    CellDartNeighbours(p, nx, ix, iy, 0);
    CellDartNeighbours(p, nx, ix + 1, iy, 0);
    CellDartNeighbours(p, nx, ix, iy + 1, 0);
    if p == Squares {
      SquareRows(nx, ny, ix, iy, j);
    } else {
      TriangleRows(nx, ny, ix, iy, j);
    }
  }

  lemma SquareRows(nx: nat, ny: nat, ix: nat, iy: nat, j: nat)
    requires ix < nx && iy < ny && j < 4
    requires ix > 0 ==> CellDart(Squares, nx, ix, iy, 0) == CellDart(Squares, nx, ix - 1, iy, 0) + 4
    requires CellDart(Squares, nx, ix + 1, iy, 0) == CellDart(Squares, nx, ix, iy, 0) + 4
    requires CellDart(Squares, nx, ix, iy + 1, 0) == CellDart(Squares, nx, ix, iy, 0) + 4 * nx
    requires iy > 0 ==> CellDart(Squares, nx, ix, iy, 0) == CellDart(Squares, nx, ix, iy - 1, 0) + 4 * nx
    ensures SquareCell(nx, ny, ix, iy)[j].b1 == CellDart(Squares, nx, ix, iy, NextInFace(Squares, j))
    ensures SquareCell(nx, ny, ix, iy)[j].b0 == CellDart(Squares, nx, ix, iy, PrevInFace(Squares, j))
    ensures SquareCell(nx, ny, ix, iy)[j].b2 == PlaceDart(Squares, nx, Across(Squares, nx, ny, ix, iy, j))
  {
  }

  lemma TriangleRows(nx: nat, ny: nat, ix: nat, iy: nat, j: nat)
    requires ix < nx && iy < ny && j < 6
    requires ix > 0 ==> CellDart(Triangles, nx, ix, iy, 0) == CellDart(Triangles, nx, ix - 1, iy, 0) + 6
    requires CellDart(Triangles, nx, ix + 1, iy, 0) == CellDart(Triangles, nx, ix, iy, 0) + 6
    requires CellDart(Triangles, nx, ix, iy + 1, 0) == CellDart(Triangles, nx, ix, iy, 0) + 6 * nx
    requires iy > 0 ==> CellDart(Triangles, nx, ix, iy, 0) == CellDart(Triangles, nx, ix, iy - 1, 0) + 6 * nx
    ensures TriangleCell(nx, ny, ix, iy)[j].b1 == CellDart(Triangles, nx, ix, iy, NextInFace(Triangles, j))
    ensures TriangleCell(nx, ny, ix, iy)[j].b0 == CellDart(Triangles, nx, ix, iy, PrevInFace(Triangles, j))
    ensures TriangleCell(nx, ny, ix, iy)[j].b2 == PlaceDart(Triangles, nx, Across(Triangles, nx, ny, ix, iy, j))
  {
  }

  /** β1 and β0 go round each face of a cell, one the inverse of the other. */
  lemma FaceCycle(p: Pattern, nx: nat, ny: nat, ix: nat, iy: nat, j: nat)
    requires ix < nx && iy < ny && j < DartsPerCell(p)
    ensures 0 < CellDart(p, nx, ix, iy, j) < |GridTable(p, nx, ny)|
    ensures NextInFace(p, j) < DartsPerCell(p) && PrevInFace(p, j) < DartsPerCell(p)
    ensures PrevInFace(p, NextInFace(p, j)) == j && NextInFace(p, PrevInFace(p, j)) == j
    ensures GridTable(p, nx, ny)[CellDart(p, nx, ix, iy, j)].b1 == CellDart(p, nx, ix, iy, NextInFace(p, j))
    ensures GridTable(p, nx, ny)[CellDart(p, nx, ix, iy, j)].b0 == CellDart(p, nx, ix, iy, PrevInFace(p, j))
  {
    GridTableIndex(p, nx, ny, ix, iy, j);
    CellRows(p, nx, ny, ix, iy, j);
  }

  /** β2 sends each dart to the dart across its edge, and boundary darts to the null dart. */
  lemma Beta2IsAcross(p: Pattern, nx: nat, ny: nat, ix: nat, iy: nat, j: nat)
    requires ix < nx && iy < ny && j < DartsPerCell(p)
    ensures 0 < CellDart(p, nx, ix, iy, j) < |GridTable(p, nx, ny)|
    ensures GridTable(p, nx, ny)[CellDart(p, nx, ix, iy, j)].b2 == PlaceDart(p, nx, Across(p, nx, ny, ix, iy, j))
  {
    GridTableIndex(p, nx, ny, ix, iy, j);
    CellRows(p, nx, ny, ix, iy, j);
  }

  /** The images of every non-null dart of a grid table name darts of the table, and undo each other. */
  lemma GridDartLinks(p: Pattern, nx: nat, ny: nat, d: nat)
    requires 0 < d < |GridTable(p, nx, ny)|
    ensures var t := GridTable(p, nx, ny);
      t[d].b0 < |t| && t[d].b1 < |t| && t[d].b2 < |t|
      && (t[d].b1 != 0 ==> t[t[d].b1].b0 == d)
      && (t[d].b0 != 0 ==> t[t[d].b0].b1 == d)
      && (t[d].b2 != 0 ==> t[t[d].b2].b2 == d)
  {
    var ix, iy, j := DartCell(p, nx, ny, d);
    FaceCycle(p, nx, ny, ix, iy, j);
    FaceCycle(p, nx, ny, ix, iy, NextInFace(p, j));
    FaceCycle(p, nx, ny, ix, iy, PrevInFace(p, j));
    Beta2IsAcross(p, nx, ny, ix, iy, j);
    AcrossIsInvolution(p, nx, ny, ix, iy, j);
    var o := Across(p, nx, ny, ix, iy, j);
    if o.Some? {
      Beta2IsAcross(p, nx, ny, o.value.ix, o.value.iy, o.value.j);
    }
  }

  /** Both generators build a well-formed map: β0 inverts β1 and β2 is an involution. */
  lemma GridConsistent(p: Pattern, nx: nat, ny: nat)
    ensures Consistent(GridTable(p, nx, ny))
  {
    var t := GridTable(p, nx, ny);
    forall d | 0 < d < |t|
      ensures t[d].b0 < |t| && t[d].b1 < |t| && t[d].b2 < |t|
      ensures t[d].b1 != 0 ==> t[t[d].b1].b0 == d
      ensures t[d].b0 != 0 ==> t[t[d].b0].b1 == d
      ensures t[d].b2 != 0 ==> t[t[d].b2].b2 == d
    {
      GridDartLinks(p, nx, ny, d);
    }
    assert t[0] == FreeRow;
  }

  /** In a quad grid, β2 is null exactly on the sides that lie on the grid's boundary. */
  lemma SquareBoundary(nx: nat, ny: nat, ix: nat, iy: nat, j: nat)
    requires ix < nx && iy < ny && j < 4
    ensures CellDart(Squares, nx, ix, iy, j) < |GridTable(Squares, nx, ny)|
    ensures GridTable(Squares, nx, ny)[CellDart(Squares, nx, ix, iy, j)].b2 == 0
      <==> (j == 0 && iy == 0) || (j == 1 && ix == nx - 1) || (j == 2 && iy == ny - 1) || (j == 3 && ix == 0)
  {
    Beta2IsAcross(Squares, nx, ny, ix, iy, j);
  }

  /** In a split grid, the two diagonal darts d2 and d4 of a cell are β2-linked to each other. */
  lemma TriangleDiagonal(nx: nat, ny: nat, ix: nat, iy: nat)
    requires ix < nx && iy < ny
    ensures CellDart(Triangles, nx, ix, iy, 3) < |GridTable(Triangles, nx, ny)|
    ensures GridTable(Triangles, nx, ny)[CellDart(Triangles, nx, ix, iy, 1)].b2 == CellDart(Triangles, nx, ix, iy, 3)
    ensures GridTable(Triangles, nx, ny)[CellDart(Triangles, nx, ix, iy, 3)].b2 == CellDart(Triangles, nx, ix, iy, 1)
  {
    Beta2IsAcross(Triangles, nx, ny, ix, iy, 1);
    Beta2IsAcross(Triangles, nx, ny, ix, iy, 3);
  }
}
