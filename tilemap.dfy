/** The static tile grid and its broad-phase query `TileMap.Cast`. */
module Tiles {
  import opened Geometry

  const TILE_SIZE: int := 32
  const ROWS: int := 12
  const COLS: int := 20
  /** The first solid row of the level: rows 0 to 6 are empty, rows 7 to 11 solid. */
  const FLOOR_ROW: int := 7

  /** Cell codes by row, then column: 0 is empty, 1 is solid. */
  type Grid = seq<seq<int>>

  predicate WellFormed(g: Grid) {
    |g| == ROWS && forall r :: 0 <= r < |g| ==> |g[r]| == COLS
  }

  /** The shape of the level: rows FLOOR_ROW and below are solid, the rows
      above them empty. */
  predicate FloorLayout(g: Grid) {
    WellFormed(g) &&
    forall r, c :: 0 <= r < ROWS && 0 <= c < COLS ==> g[r][c] == if r >= FLOOR_ROW then 1 else 0
  }

  /** The level layout the map is built with. */
  function Level(): (g: Grid)
    ensures FloorLayout(g)
  {
    seq(ROWS, r => seq(COLS, c => if r >= FLOOR_ROW then 1 else 0))
  }

  /** The C# conversion `(int)x` of a float: truncation toward zero. */
  function Trunc(x: real): (r: int)
    ensures x >= 0.0 ==> 0 <= r && r as real <= x < r as real + 1.0
    ensures x < 0.0 ==> r <= 0 && r as real - 1.0 < x <= r as real
  {
    if x >= 0.0 then x.Floor else -((-x).Floor)
  }

  /** `Math.Clamp(v, lo, hi)`. */
  function Clamp(v: int, lo: int, hi: int): (r: int)
    requires lo <= hi
    ensures lo <= r <= hi
    ensures lo <= v <= hi ==> r == v
    ensures v < lo ==> r == lo
    ensures hi < v ==> r == hi
  {
    if v < lo then lo else if hi < v then hi else v
  }

  /** The clamped, one-cell-widened window of cells a query inspects; rows and
      columns are inclusive. */
  datatype Window = Window(minRow: int, maxRow: int, minCol: int, maxCol: int)

  /** The pixel coordinate of cell edge `i`, that is `i * TileSize`. The
      tile size is written as a literal here and in `CellIndex`, which keeps
      the arithmetic linear. */
  function Edge(i: int): real {
    (32 * i) as real
  }

  /** One index of the window: `Math.Clamp((int)(coord / TileSize) + widen, 0, last)`.
      It is always a cell of the grid, and unwidened, for a coordinate inside
      the grid, it is the cell that holds the coordinate. */
  function CellIndex(coord: real, widen: int, last: int): (r: int)
    requires 0 <= last
    ensures 0 <= r <= last
    ensures widen == 0 && 0.0 <= coord < Edge(last + 1) ==> Edge(r) <= coord < Edge(r + 1)
  {
    Clamp(Trunc(coord / 32.0) + widen, 0, last)
  }

  /** The window of `Cast`: the cells under the box's corners, widened by one
      cell on every side and clamped into the grid. */
  function WindowOf(box: AABB): (w: Window)
    ensures 0 <= w.minRow < ROWS && 0 <= w.maxRow < ROWS
    ensures 0 <= w.minCol < COLS && 0 <= w.maxCol < COLS
    ensures box.min.y <= box.max.y ==> w.minRow <= w.maxRow
    ensures box.min.x <= box.max.x ==> w.minCol <= w.maxCol
  {
    Window(CellIndex(box.min.y, -1, ROWS - 1), CellIndex(box.max.y, 1, ROWS - 1),
           CellIndex(box.min.x, -1, COLS - 1), CellIndex(box.max.x, 1, COLS - 1))
  }

  /** The world-space box of cell (row, col). */
  function TileBox(row: int, col: int): (t: AABB)
    ensures t.min == Vec2(Edge(col), Edge(row))
    ensures t.Width() == TILE_SIZE as real && t.Height() == TILE_SIZE as real
  {
    Create(Edge(col), Edge(row), TILE_SIZE as real, TILE_SIZE as real)
  }

  /** The boxes of the solid cells of `row` in columns c0 .. c1-1, left to
      right (the column loop of `Cast`). */
  function RowTiles(g: Grid, row: int, c0: int, c1: int): seq<AABB>
    requires WellFormed(g) && 0 <= row < ROWS && 0 <= c0 && c1 <= COLS
    decreases c1 - c0
  {
    if c1 <= c0 then []
    else RowTiles(g, row, c0, c1 - 1) + (if g[row][c1 - 1] == 1 then [TileBox(row, c1 - 1)] else [])
  }

  /** The boxes of the solid cells in rows r0 .. r1-1 and columns c0 .. c1-1, in
      row-major order (the row loop of `Cast`). This is the reference the
      lemmas below state membership, order, count and prefixes against. */
  function Tiles(g: Grid, r0: int, r1: int, c0: int, c1: int): seq<AABB>
    requires WellFormed(g) && 0 <= r0 && r1 <= ROWS && 0 <= c0 && c1 <= COLS
    decreases r1 - r0
  {
    if r1 <= r0 then []
    else Tiles(g, r0, r1 - 1, c0, c1) + RowTiles(g, r1 - 1, c0, c1)
  }

  /** What `Cast` emits for `box`: never more boxes than the grid has cells. */
  function Candidates(g: Grid, box: AABB): (r: seq<AABB>)
    requires WellFormed(g)
    ensures |r| <= ROWS * COLS
  {
    var w := WindowOf(box);
    TilesAtMost(g, w.minRow, w.maxRow + 1, w.minCol, w.maxCol + 1);
    Tiles(g, w.minRow, w.maxRow + 1, w.minCol, w.maxCol + 1)
  }

  /** A row stretch holds at most one box per column of the grid, also when
      the stretch is empty or inverted. */
  lemma RowTilesAtMost(g: Grid, row: int, c0: int, c1: int)
    requires WellFormed(g) && 0 <= row < ROWS && 0 <= c0 && c1 <= COLS
    ensures |RowTiles(g, row, c0, c1)| <= COLS
  {
    if c0 <= c1 {
      RowTilesCount(g, row, c0, c1);
    }
  }

  /** Rows r0 .. r1-1 hold at most a full grid row of boxes each, also when
      the band or the stretch of columns is empty or inverted. */
  lemma {:induction false} TilesAtMost(g: Grid, r0: int, r1: int, c0: int, c1: int)
    requires WellFormed(g) && 0 <= r0 && r1 <= ROWS && 0 <= c0 && c1 <= COLS
    ensures |Tiles(g, r0, r1, c0, c1)| <= if r1 <= r0 then 0 else (r1 - r0) * COLS
    decreases r1 - r0
  {
    if r0 < r1 {
      TilesAtMost(g, r0, r1 - 1, c0, c1);
      RowTilesAtMost(g, r1 - 1, c0, c1);
    }
  }

  /** Why the window is widened: every solid cell the box overlaps or touches,
      on any side and including the cell it stands on, is a candidate. A box
      whose left edge lies on a cell's right edge has that cell one column
      below the one its own edge falls in. */
  lemma CandidatesCover(g: Grid, box: AABB, row: int, col: int)
    requires WellFormed(g) && 0 <= row < ROWS && 0 <= col < COLS && g[row][col] == 1
    requires box.min.x <= Edge(col + 1) && Edge(col) <= box.max.x
    requires box.min.y <= Edge(row + 1) && Edge(row) <= box.max.y
    ensures TileBox(row, col) in Candidates(g, box)
  {
    var w := WindowOf(box);
    assert w.minRow <= row <= w.maxRow && w.minCol <= col <= w.maxCol;
    TilesComplete(g, w.minRow, w.maxRow + 1, w.minCol, w.maxCol + 1, row, col);
  }

  /** Row-major order on tile boxes: higher rows first, then left to right. */
  predicate Before(s: AABB, t: AABB) {
    s.min.y < t.min.y || (s.min.y == t.min.y && s.min.x < t.min.x)
  }

  /** Every box of a row stretch is the box of one of its solid cells. */
  lemma {:induction false} RowTilesSound(g: Grid, row: int, c0: int, c1: int, t: AABB)
    requires WellFormed(g) && 0 <= row < ROWS && 0 <= c0 && c1 <= COLS
    requires t in RowTiles(g, row, c0, c1)
    ensures exists col :: c0 <= col < c1 && g[row][col] == 1 && t == TileBox(row, col)
    decreases c1 - c0
  {
    var p := RowTiles(g, row, c0, c1 - 1);
    if t in p {
      RowTilesSound(g, row, c0, c1 - 1, t);
    } else {
      assert g[row][c1 - 1] == 1 && t == TileBox(row, c1 - 1);
    }
  }

  /** The box of every solid cell of a row stretch is among its boxes. */
  lemma {:induction false} RowTilesComplete(g: Grid, row: int, c0: int, c1: int, col: int)
    requires WellFormed(g) && 0 <= row < ROWS && 0 <= c0 && c1 <= COLS
    requires c0 <= col < c1 && g[row][col] == 1
    ensures TileBox(row, col) in RowTiles(g, row, c0, c1)
    decreases c1 - c0
  {
    var p := RowTiles(g, row, c0, c1 - 1);
    if col < c1 - 1 {
      RowTilesComplete(g, row, c0, c1 - 1, col);
      assert RowTiles(g, row, c0, c1) == p + (if g[row][c1 - 1] == 1 then [TileBox(row, c1 - 1)] else []);
    } else {
      assert RowTiles(g, row, c0, c1) == p + [TileBox(row, col)];
    }
  }

  /** `t` is the box of a solid cell in rows r0 .. r1-1 and columns c0 .. c1-1. */
  ghost predicate SolidCellIn(g: Grid, r0: int, r1: int, c0: int, c1: int, t: AABB)
    requires WellFormed(g) && 0 <= r0 && r1 <= ROWS && 0 <= c0 && c1 <= COLS
  {
    exists row, col :: r0 <= row < r1 && c0 <= col < c1 && g[row][col] == 1 && t == TileBox(row, col)
  }

  /** Every box of a window is the box of one of its solid cells. */
  lemma {:induction false} TilesSound(g: Grid, r0: int, r1: int, c0: int, c1: int, t: AABB)
    requires WellFormed(g) && 0 <= r0 && r1 <= ROWS && 0 <= c0 && c1 <= COLS
    requires t in Tiles(g, r0, r1, c0, c1)
    ensures SolidCellIn(g, r0, r1, c0, c1, t)
    decreases r1 - r0
  {
    var last := r1 - 1;
    assert Tiles(g, r0, r1, c0, c1) == Tiles(g, r0, last, c0, c1) + RowTiles(g, last, c0, c1);
    if t in RowTiles(g, last, c0, c1) {
      RowTilesSound(g, last, c0, c1, t);
      var col :| c0 <= col < c1 && g[last][col] == 1 && t == TileBox(last, col);
      assert r0 <= last < r1;
    } else {
      TilesSound(g, r0, last, c0, c1, t);
      var row, col :| r0 <= row < last && c0 <= col < c1 && g[row][col] == 1 && t == TileBox(row, col);
      assert r0 <= row < r1;
    }
  }

  lemma InConcat(t: AABB, p: seq<AABB>, q: seq<AABB>)
    requires t in p || t in q
    ensures t in p + q
  {
  }

  /** The box of every solid cell of a window is in the window's boxes. */
  lemma {:induction false} TilesComplete(g: Grid, r0: int, r1: int, c0: int, c1: int, row: int, col: int)
    requires WellFormed(g) && 0 <= r0 && r1 <= ROWS && 0 <= c0 && c1 <= COLS
    requires r0 <= row < r1 && c0 <= col < c1 && g[row][col] == 1
    ensures TileBox(row, col) in Tiles(g, r0, r1, c0, c1)
    decreases r1 - r0
  {
    var last := r1 - 1;
    var p, q := Tiles(g, r0, last, c0, c1), RowTiles(g, last, c0, c1);
    assert Tiles(g, r0, r1, c0, c1) == p + q;
    if row < last {
      TilesComplete(g, r0, last, c0, c1, row, col);
      InConcat(TileBox(row, col), p, q);
    } else {
      RowTilesComplete(g, last, c0, c1, col);
      InConcat(TileBox(row, col), p, q);
    }
  }

  /** A box in a window is exactly a solid cell of that window. */
  lemma TilesMembers(g: Grid, r0: int, r1: int, c0: int, c1: int, t: AABB)
    requires WellFormed(g) && 0 <= r0 && r1 <= ROWS && 0 <= c0 && c1 <= COLS
    ensures t in Tiles(g, r0, r1, c0, c1) <==> SolidCellIn(g, r0, r1, c0, c1, t)
  {
    if t in Tiles(g, r0, r1, c0, c1) {
      TilesSound(g, r0, r1, c0, c1, t);
    }
    if SolidCellIn(g, r0, r1, c0, c1, t) {
      var row, col :| r0 <= row < r1 && c0 <= col < c1 && g[row][col] == 1 && t == TileBox(row, col);
      TilesComplete(g, r0, r1, c0, c1, row, col);
    }
  }

  /** `Cast` yields exactly the solid cells of its window, as 32 by 32 boxes. */
  lemma CandidatesMembers(g: Grid, box: AABB, t: AABB)
    requires WellFormed(g)
    ensures var w := WindowOf(box);
      t in Candidates(g, box) <==>
        exists row, col :: w.minRow <= row <= w.maxRow && w.minCol <= col <= w.maxCol &&
          g[row][col] == 1 && t == TileBox(row, col)
  {
    var w := WindowOf(box);
    TilesMembers(g, w.minRow, w.maxRow + 1, w.minCol, w.maxCol + 1, t);
    assert SolidCellIn(g, w.minRow, w.maxRow + 1, w.minCol, w.maxCol + 1, t) <==>
      exists row, col :: w.minRow <= row <= w.maxRow && w.minCol <= col <= w.maxCol &&
        g[row][col] == 1 && t == TileBox(row, col);
  }

  /** Every box of a row stretch lies in that row and within its columns. */
  lemma {:induction false} RowTilesPlaced(g: Grid, row: int, c0: int, c1: int)
    requires WellFormed(g) && 0 <= row < ROWS && 0 <= c0 && c1 <= COLS
    ensures forall i :: 0 <= i < |RowTiles(g, row, c0, c1)| ==>
      RowTiles(g, row, c0, c1)[i].min.y == Edge(row) &&
      Edge(c0) <= RowTiles(g, row, c0, c1)[i].min.x < Edge(c1)
    decreases c1 - c0
  {
    if c0 < c1 {
      RowTilesPlaced(g, row, c0, c1 - 1);
    }
  }

  /** Strict row-major order along a sequence of boxes. */
  predicate RowMajor(s: seq<AABB>) {
    forall i, j :: 0 <= i < j < |s| ==> Before(s[i], s[j])
  }

  /** The boxes of a row stretch are strictly left to right. */
  lemma {:induction false} RowTilesOrdered(g: Grid, row: int, c0: int, c1: int)
    requires WellFormed(g) && 0 <= row < ROWS && 0 <= c0 && c1 <= COLS
    ensures RowMajor(RowTiles(g, row, c0, c1))
    decreases c1 - c0
  {
    if c0 < c1 {
      var p := RowTiles(g, row, c0, c1 - 1);
      var q := if g[row][c1 - 1] == 1 then [TileBox(row, c1 - 1)] else [];
      var s := RowTiles(g, row, c0, c1);
      assert s == p + q;
      RowTilesOrdered(g, row, c0, c1 - 1);
      RowTilesPlaced(g, row, c0, c1 - 1);
      forall i, j | 0 <= i < j < |s|
        ensures Before(s[i], s[j])
      {
        if j >= |p| {
          assert s[j] == TileBox(row, c1 - 1) && s[i] == p[i];
        }
      }
    }
  }

  /** Every box of a window lies within its rows. */
  lemma {:induction false} TilesPlaced(g: Grid, r0: int, r1: int, c0: int, c1: int)
    requires WellFormed(g) && 0 <= r0 && r1 <= ROWS && 0 <= c0 && c1 <= COLS
    ensures forall i :: 0 <= i < |Tiles(g, r0, r1, c0, c1)| ==>
      Edge(r0) <= Tiles(g, r0, r1, c0, c1)[i].min.y < Edge(r1)
    decreases r1 - r0
  {
    if r0 < r1 {
      TilesPlaced(g, r0, r1 - 1, c0, c1);
      RowTilesPlaced(g, r1 - 1, c0, c1);
    }
  }

  /** The boxes of a window come in strict row-major order. */
  lemma {:induction false} TilesOrdered(g: Grid, r0: int, r1: int, c0: int, c1: int)
    requires WellFormed(g) && 0 <= r0 && r1 <= ROWS && 0 <= c0 && c1 <= COLS
    ensures RowMajor(Tiles(g, r0, r1, c0, c1))
    decreases r1 - r0
  {
    if r0 < r1 {
      var p := Tiles(g, r0, r1 - 1, c0, c1);
      var q := RowTiles(g, r1 - 1, c0, c1);
      assert RowMajor(p + q) by {
        var y := Edge(r1 - 1);
        TilesOrdered(g, r0, r1 - 1, c0, c1);
        RowTilesOrdered(g, r1 - 1, c0, c1);
        TilesPlaced(g, r0, r1 - 1, c0, c1);
        RowTilesPlaced(g, r1 - 1, c0, c1);
        ConcatOrdered(p, q, y);
      }
    }
  }

  /** Boxes all above line y, followed by boxes all on line y, stay in
      row-major order. */
  lemma ConcatOrdered(p: seq<AABB>, q: seq<AABB>, y: real)
    requires RowMajor(p) && RowMajor(q)
    requires forall i :: 0 <= i < |p| ==> p[i].min.y < y
    requires forall j :: 0 <= j < |q| ==> q[j].min.y == y
    ensures RowMajor(p + q)
  {
    var s := p + q;
    forall i, j | 0 <= i < j < |s|
      ensures Before(s[i], s[j])
    {
      if i >= |p| {
        assert s[i] == q[i - |p|] && s[j] == q[j - |p|];
        assert Before(q[i - |p|], q[j - |p|]);
      } else if j >= |p| {
        assert s[i] == p[i] && s[j] == q[j - |p|];
        assert p[i].min.y < y == q[j - |p|].min.y;
      } else {
        assert s[i] == p[i] && s[j] == p[j];
        assert Before(p[i], p[j]);
      }
    }
  }

  /** `Cast` emits its boxes in strict row-major order. */
  lemma CandidatesOrdered(g: Grid, box: AABB)
    requires WellFormed(g)
    ensures RowMajor(Candidates(g, box))
  {
    var w := WindowOf(box);
    TilesOrdered(g, w.minRow, w.maxRow + 1, w.minCol, w.maxCol + 1);
  }

  /** A row stretch holds at most one box per column. */
  lemma {:induction false} RowTilesCount(g: Grid, row: int, c0: int, c1: int)
    requires WellFormed(g) && 0 <= row < ROWS && 0 <= c0 <= c1 <= COLS
    ensures |RowTiles(g, row, c0, c1)| <= c1 - c0
    decreases c1 - c0
  {
    if c0 < c1 {
      RowTilesCount(g, row, c0, c1 - 1);
    }
  }

  /** A window holds at most one box per cell. */
  lemma {:induction false} TilesCount(g: Grid, r0: int, r1: int, c0: int, c1: int)
    requires WellFormed(g) && 0 <= r0 <= r1 <= ROWS && 0 <= c0 <= c1 <= COLS
    ensures |Tiles(g, r0, r1, c0, c1)| <= (r1 - r0) * (c1 - c0)
    decreases r1 - r0
  {
    if r0 < r1 {
      TilesCount(g, r0, r1 - 1, c0, c1);
      RowTilesCount(g, r1 - 1, c0, c1);
      assert (r1 - r0) * (c1 - c0) == (r1 - 1 - r0) * (c1 - c0) + (c1 - c0);
    }
  }

  /** Truncated cell coordinates of two points at most one cell apart differ by
      at most one. */
  lemma TruncSpread(lo: real, hi: real)
    requires lo <= hi <= lo + 1.0
    ensures Trunc(lo) <= Trunc(hi) <= Trunc(lo) + 1
  {
  }

  /** A query box at most one cell wide spans at most four columns of the window
      (its own two plus the widening on either side), and likewise for rows. */
  lemma WindowSpan(box: AABB)
    requires 0.0 <= box.Width() <= TILE_SIZE as real && 0.0 <= box.Height() <= TILE_SIZE as real
    ensures var w := WindowOf(box);
      w.maxRow - w.minRow + 1 <= 4 && w.maxCol - w.minCol + 1 <= 4
  {
    TruncSpread(box.min.x / 32.0, box.max.x / 32.0);
    TruncSpread(box.min.y / 32.0, box.max.y / 32.0);
  }

  /** The capacity bound of the broad phase: a box of at most one cell by one
      cell has at most sixteen candidates, so a buffer of twenty never overflows. */
  lemma CandidatesBound(g: Grid, box: AABB)
    requires WellFormed(g)
    requires 0.0 <= box.Width() <= TILE_SIZE as real && 0.0 <= box.Height() <= TILE_SIZE as real
    ensures |Candidates(g, box)| <= 16
  {
    var w := WindowOf(box);
    WindowSpan(box);
    SmallWindowCount(g, w);
  }

  /** A window of at most four rows by four columns holds at most sixteen boxes. */
  lemma SmallWindowCount(g: Grid, w: Window)
    requires WellFormed(g)
    requires 0 <= w.minRow < ROWS && 0 <= w.maxRow < ROWS && 0 <= w.minCol < COLS && 0 <= w.maxCol < COLS
    requires w.minRow <= w.maxRow < w.minRow + 4 && w.minCol <= w.maxCol < w.minCol + 4
    ensures |Tiles(g, w.minRow, w.maxRow + 1, w.minCol, w.maxCol + 1)| <= 16
  {
    TilesCount(g, w.minRow, w.maxRow + 1, w.minCol, w.maxCol + 1);
    SmallProduct(w.maxRow + 1 - w.minRow, w.maxCol + 1 - w.minCol);
  }

  lemma SmallProduct(a: int, b: int)
    requires 0 <= a <= 4 && 0 <= b <= 4
    ensures a * b <= 16
  {
    if a == 0 {
    } else if a == 1 {
    } else if a == 2 {
    } else if a == 3 {
    } else {
      assert a == 4;
    }
  }

  /** One column more of a row stretch: the stretch grows by the box of that
      column exactly when the cell is solid, and stays a prefix of any longer
      stretch. */
  lemma RowTilesStep(g: Grid, row: int, c0: int, col: int, c1: int)
    requires WellFormed(g) && 0 <= row < ROWS && 0 <= c0 <= col < c1 <= COLS
    ensures RowTiles(g, row, c0, col + 1) ==
      RowTiles(g, row, c0, col) + (if g[row][col] == 1 then [TileBox(row, col)] else [])
    ensures RowTiles(g, row, c0, col + 1) <= RowTiles(g, row, c0, c1)
  {
    RowTilesPrefix(g, row, c0, col + 1, c1);
  }

  /** When `done` followed by one box is a prefix of `s`, so is `done` on its own. */
  lemma PrefixDrop(done: seq<AABB>, t: AABB, s: seq<AABB>)
    requires done + [t] <= s
    ensures |done| < |s| && s[..|done|] == done
  {
    assert s[..|done|] == (done + [t])[..|done|];
  }

  /** Any row stretch is a prefix of a longer stretch of the same row. */
  lemma {:induction false} RowTilesPrefix(g: Grid, row: int, c0: int, c: int, c1: int)
    requires WellFormed(g) && 0 <= row < ROWS && 0 <= c0 && c <= c1 <= COLS
    ensures RowTiles(g, row, c0, c) <= RowTiles(g, row, c0, c1)
    decreases c1 - c
  {
    if c < c1 {
      RowTilesPrefix(g, row, c0, c, c1 - 1);
      if c1 - 1 < c0 {
        assert RowTiles(g, row, c0, c) == [];
      }
    }
  }

  /** The rows before `row` and a left part of `row` form a prefix of a window
      that extends past `row`. */
  lemma {:induction false} TilesPrefix(g: Grid, r0: int, row: int, r1: int, c0: int, c: int, c1: int)
    requires WellFormed(g) && 0 <= r0 <= row < r1 <= ROWS && 0 <= c0 <= c <= c1 <= COLS
    ensures Tiles(g, r0, row, c0, c1) + RowTiles(g, row, c0, c) <= Tiles(g, r0, r1, c0, c1)
    decreases r1 - row
  {
    var done := Tiles(g, r0, row, c0, c1);
    var upTo := Tiles(g, r0, row + 1, c0, c1);
    RowTilesPrefix(g, row, c0, c, c1);
    PrefixExtend(done, RowTiles(g, row, c0, c), RowTiles(g, row, c0, c1));
    assert upTo == done + RowTiles(g, row, c0, c1);
    if row + 1 < r1 {
      TilesPrefix(g, r0, row + 1, r1, c0, c0, c1);
      assert RowTiles(g, row + 1, c0, c0) == [];
      assert upTo + [] == upTo;
      PrefixTransitive(done + RowTiles(g, row, c0, c), upTo, Tiles(g, r0, r1, c0, c1));
    }
  }

  lemma PrefixExtend(done: seq<AABB>, x: seq<AABB>, y: seq<AABB>)
    requires x <= y
    ensures done + x <= done + y
  {
    assert (done + y)[..|done + x|] == done + y[..|x|];
  }

  lemma PrefixTransitive(x: seq<AABB>, y: seq<AABB>, z: seq<AABB>)
    requires x <= y && y <= z
    ensures x <= z
  {
    assert z[..|x|] == z[..|y|][..|x|];
  }

  /** Two consecutive slices of `b` that hold `done` and then `line` make the
      prefix `done + line`. */
  lemma AppendSlices(b: seq<AABB>, i: int, j: int, done: seq<AABB>, line: seq<AABB>)
    requires 0 <= i <= j <= |b| && b[..i] == done && b[i..j] == line
    ensures b[..j] == done + line
  {
    assert b[..j] == b[..i] + b[i..j];
  }

  /** When `b` holds `done` and then as much of `line` as fits, and `line` does
      not fit, `b` is the leading part of any `s` that starts with `done + line`. */
  lemma OverflowSlices(b: seq<AABB>, i: int, done: seq<AABB>, line: seq<AABB>, s: seq<AABB>)
    requires 0 <= i <= |b| && |b| - i < |line|
    requires b[..i] == done && b[i..] == line[..|b| - i] && done + line <= s
    ensures |s| > |b| && b == s[..|b|]
  {
    assert b == b[..i] + b[i..];
    assert s[..|b|] == (done + line)[..|b|];
    assert (done + line)[..|b|] == done + line[..|b| - i];
  }

  datatype CastResult = Found(count: nat) | Overflow

  /** The tile map: a 12 by 20 cell array that is never changed after
      construction; `cells` is its value. */
  class TileMap {
    const tiles: array2<int>
    ghost const cells: Grid

    ghost predicate Valid()
      reads this, tiles
    {
      WellFormed(cells) && tiles.Length0 == ROWS && tiles.Length1 == COLS &&
      forall r, c :: 0 <= r < ROWS && 0 <= c < COLS ==> tiles[r, c] == cells[r][c]
    }

    constructor ()
      ensures Valid() && fresh(tiles)
      ensures cells == Level()
    {
      tiles := new int[ROWS, COLS]((r, c) => if r >= FLOOR_ROW then 1 else 0);
      cells := Level();
    }

    /** `TileMap.Cast`: writes the solid cells of the window of `box` to the
        front of `buffer`, row by row and left to right, and reports how many it
        wrote. A window with more solid cells than `buffer` holds is the index
        error of the C# span: the buffer is then full with the first of them. */
    method Cast(box: AABB, buffer: array<AABB>) returns (r: CastResult)
      requires Valid()
      modifies buffer
      ensures var s := Candidates(cells, box);
        if |s| <= buffer.Length then
          r == Found(|s|) && buffer[..|s|] == s && buffer[|s|..] == old(buffer[|s|..])
        else
          r == Overflow && buffer[..] == s[..buffer.Length]
    {
      var window := WindowOf(box);
      var minTileCol, maxTileCol := window.minCol, window.maxCol;
      var minTileRow, maxTileRow := window.minRow, window.maxRow;
      r := CastRows(minTileRow, maxTileRow, minTileCol, maxTileCol, buffer);
      if r.Found? {
        assert buffer[r.count..] == old(buffer[r.count..]);
      }
    }

    /** The row loop of `Cast`: writes the solid cells of rows minRow .. maxRow,
        columns minCol .. maxCol, in row-major order to the start of `buffer`. */
    method CastRows(minRow: int, maxRow: int, minCol: int, maxCol: int, buffer: array<AABB>) returns (r: CastResult)
      requires Valid() && 0 <= minRow < ROWS && maxRow < ROWS && 0 <= minCol < COLS && maxCol < COLS
      modifies buffer
      ensures var s := Tiles(cells, minRow, maxRow + 1, minCol, maxCol + 1);
        if |s| <= buffer.Length then
          r == Found(|s|) && buffer[..|s|] == s &&
          forall k :: |s| <= k < buffer.Length ==> buffer[k] == old(buffer[k])
        else
          r == Overflow && buffer[..] == s[..buffer.Length]
    {
      ghost var s := Tiles(cells, minRow, maxRow + 1, minCol, maxCol + 1);
      ghost var c1 := maxCol + 1;
      ghost var rowEnd := if maxRow + 1 < minRow then minRow else maxRow + 1;
      var bufferIndex := 0;
      var row := minRow;
      while row <= maxRow
        invariant minRow <= row <= rowEnd
        invariant 0 <= bufferIndex <= buffer.Length
        invariant buffer[..bufferIndex] == Tiles(cells, minRow, row, minCol, c1)
        invariant forall k :: bufferIndex <= k < buffer.Length ==> buffer[k] == old(buffer[k])
      {
        ghost var done := buffer[..bufferIndex];
        ghost var before := buffer[..];
        assert forall k :: bufferIndex <= k < buffer.Length ==> before[k] == old(buffer[k]);
        var next := CastRow(row, minCol, maxCol, buffer, bufferIndex);
        assert buffer[..bufferIndex] == done;
        ghost var line := RowTiles(cells, row, minCol, c1);
        if next.Overflow? {
          TilesPrefix(cells, minRow, row, maxRow + 1, minCol, c1, c1);
          OverflowSlices(buffer[..], bufferIndex, done, line, s);
          return Overflow;
        }
        AppendSlices(buffer[..], bufferIndex, next.count, done, line);
        assert next.count == bufferIndex + |line|;
        assert forall k :: next.count <= k < buffer.Length ==> buffer[k] == before[k];
        bufferIndex := next.count;
        row := row + 1;
      }
      if maxRow + 1 <= minRow {
        assert Tiles(cells, minRow, row, minCol, c1) == [] == s;
      } else {
        assert row == maxRow + 1;
      }
      assert buffer[..bufferIndex] == s && |s| == bufferIndex;
      return Found(bufferIndex);
    }

    /** The column loop of `Cast` for one row: appends the solid cells of `row`
        in columns minCol .. maxCol to `buffer` from index `start` on, and
        reports the index after the last one written. */
    method CastRow(row: int, minCol: int, maxCol: int, buffer: array<AABB>, start: nat) returns (r: CastResult)
      requires Valid() && 0 <= row < ROWS && 0 <= minCol < COLS && maxCol < COLS && start <= buffer.Length
      modifies buffer
      ensures var line := RowTiles(cells, row, minCol, maxCol + 1);
        (forall k :: 0 <= k < start ==> buffer[k] == old(buffer[k])) &&
        if start + |line| <= buffer.Length then
          r == Found(start + |line|) && buffer[start..start + |line|] == line &&
          forall k :: start + |line| <= k < buffer.Length ==> buffer[k] == old(buffer[k])
        else
          r == Overflow && buffer[start..] == line[..buffer.Length - start]
    {
      ghost var line := RowTiles(cells, row, minCol, maxCol + 1);
      ghost var colEnd := if maxCol + 1 < minCol then minCol else maxCol + 1;
      var bufferIndex := start;
      var col := minCol;
      while col <= maxCol
        invariant minCol <= col <= colEnd
        invariant start <= bufferIndex <= buffer.Length
        invariant forall k :: 0 <= k < start ==> buffer[k] == old(buffer[k])
        invariant buffer[start..bufferIndex] == RowTiles(cells, row, minCol, col)
        invariant forall k :: bufferIndex <= k < buffer.Length ==> buffer[k] == old(buffer[k])
      {
        ghost var done := buffer[start..bufferIndex];
        RowTilesStep(cells, row, minCol, col, maxCol + 1);
        if tiles[row, col] == 1 {
          if bufferIndex == buffer.Length {
            PrefixDrop(done, TileBox(row, col), line);
            assert start + |line| > buffer.Length && buffer[start..] == done;
            return Overflow;
          }
          buffer[bufferIndex] := TileBox(row, col);
          bufferIndex := bufferIndex + 1;
          assert buffer[start..bufferIndex] == done + [TileBox(row, col)];
        }
        col := col + 1;
      }
      if maxCol + 1 <= minCol {
        assert RowTiles(cells, row, minCol, col) == [] == line;
      } else {
        assert col == maxCol + 1;
      }
      assert buffer[start..bufferIndex] == line && bufferIndex == start + |line|;
      return Found(bufferIndex);
    }
  }

  /** A box far to the right of the grid still sees the clamped last column:
      on the level's layout, the four solid cells of column 19 below the
      floor line. */
  lemma OutsideBoxSeesBorder(g: Grid, box: AABB)
    requires FloorLayout(g) && box == Create(1000.0, 300.0, 16.0, 32.0)
    ensures Candidates(g, box) == [TileBox(8, 19), TileBox(9, 19), TileBox(10, 19), TileBox(11, 19)]
  {
    OutsideBoxWindow(box);
    BorderColumn(g);
  }

  /** Rows 8 to 11 of the last column of the level: four solid cells. */
  lemma BorderColumn(g: Grid)
    requires FloorLayout(g)
    ensures Tiles(g, 8, 12, 19, 20) == [TileBox(8, 19), TileBox(9, 19), TileBox(10, 19), TileBox(11, 19)]
  {
    BorderCell(g, 8);
    BorderCell(g, 9);
    BorderCell(g, 10);
    BorderCell(g, 11);
    assert Tiles(g, 8, 8, 19, 20) == [];
    assert Tiles(g, 8, 9, 19, 20) == [TileBox(8, 19)];
    assert Tiles(g, 8, 10, 19, 20) == [TileBox(8, 19), TileBox(9, 19)];
    assert Tiles(g, 8, 11, 19, 20) == [TileBox(8, 19), TileBox(9, 19), TileBox(10, 19)];
  }

  /** The last column of a solid row of the level is one box. */
  lemma BorderCell(g: Grid, row: int)
    requires FloorLayout(g) && FLOOR_ROW <= row < ROWS
    ensures RowTiles(g, row, 19, 20) == [TileBox(row, 19)]
  {
    assert g[row][19] == 1;
    assert RowTiles(g, row, 19, 19) == [];
  }

  /** A box wholly above the grid is clamped to the top row, which the level
      leaves empty: it has no candidates at all. */
  lemma AboveBoxSeesNothing(g: Grid, box: AABB)
    requires FloorLayout(g) && box == Create(0.0, -1000.0, 16.0, 32.0)
    ensures Candidates(g, box) == []
  {
    assert WindowOf(box) == Window(0, 0, 0, 1) by {
      assert Trunc(-1000.0 / 32.0) == -31;
      assert Trunc(-968.0 / 32.0) == -30;
      assert Trunc(0.0 / 32.0) == 0;
      assert Trunc(16.0 / 32.0) == 0;
    }
    assert g[0][0] == 0 && g[0][1] == 0;
    assert RowTiles(g, 0, 0, 2) == [];
  }

  /** The window of that box: rows 8 to 11 of the clamped last column. */
  lemma OutsideBoxWindow(box: AABB)
    requires box == Create(1000.0, 300.0, 16.0, 32.0)
    ensures WindowOf(box) == Window(8, 11, 19, 19)
  {
    assert Trunc(1000.0 / 32.0) == 31;
    assert Trunc(1016.0 / 32.0) == 31;
    assert Trunc(300.0 / 32.0) == 9;
    assert Trunc(332.0 / 32.0) == 10;
  }
}
