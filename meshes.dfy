/**
 * One block mesh of the landscape: the height map it samples, the window and stride that
 * CreateBlockMesh receives, and the vertex and triangle lists that CreateBlockMesh produces,
 * as functions of those inputs.
 */
module Meshes {
  import opened IntMath

  /** Unity's Vector2Int: a pixel coordinate, a pixel or quad count, or a pixel stride. */
  datatype Vector2Int = Vector2Int(x: int, y: int)

  /**
   * The height-map texture: its size in pixels and the red channel of GetPixel(x, y),
   * the normalized height stored at pixel (x, y).
   */
  datatype HeightMap = HeightMap(width: int, height: int, red: (int, int) -> real)

  /** A mesh vertex: the pixel it was sampled at and the normalized height read there. */
  datatype Vertex = Vertex(px: int, py: int, normalizedHeight: real)

  /** Unity's Mesh: vertices (one per sample) and the triangle list (three vertex indices each). */
  datatype Mesh = Mesh(vertices: seq<Vertex>, triangles: seq<int>)

  /**
   * The diagonal along which a grid cell is split into two triangles (a compile-time switch in
   * Landscape.cs). MainDiagonal is the `#else` branch, which is the one compiled, and joins
   * corner (x, y) to corner (x + 1, y + 1); AntiDiagonal is the `#if f` branch and joins
   * (x, y + 1) to (x + 1, y).
   */
  datatype Split = MainDiagonal | AntiDiagonal

  /** The arguments pixelMin, pixelMax and pixelStep of CreateBlockMesh. */
  datatype Window = Window(pixelMin: Vector2Int, pixelMax: Vector2Int, pixelStep: Vector2Int)

  /** What CreateBlockMesh needs of its window: a positive stride and a non-empty pixel range. */
  predicate WellFormed(win: Window)
  {
    win.pixelStep.x > 0 && win.pixelStep.y > 0 &&
    win.pixelMin.x <= win.pixelMax.x && win.pixelMin.y <= win.pixelMax.y
  }

  /**
   * vertexNumber along one axis: (pixelNumber - 1) / step + 1 with pixelNumber = max - min + 1.
   * It is exactly the number of samples min, min + step, min + 2 * step, ... that do not pass max.
   */
  function VertexCount(pixelMin: int, pixelMax: int, step: int): (n: int)
    requires step > 0 && pixelMin <= pixelMax
    ensures n >= 1
  {
    var pixelNumber := pixelMax - pixelMin + 1;
    (pixelNumber - 1) / step + 1
  }

  /** The samples min, min + step, ..., min + (n - 1) * step all lie in [min, max]; one more would not. */
  lemma VertexCountSpan(pixelMin: int, pixelMax: int, step: int)
    requires step > 0 && pixelMin <= pixelMax
    ensures var n := VertexCount(pixelMin, pixelMax, step);
            (n - 1) * step <= pixelMax - pixelMin < n * step
  {
    var q := (pixelMax - pixelMin) / step;
    StepCount(pixelMax - pixelMin, step, q);
    StepCount(pixelMax - pixelMin, step, q + 1);
  }

  function Columns(win: Window): int
    requires WellFormed(win)
  {
    VertexCount(win.pixelMin.x, win.pixelMax.x, win.pixelStep.x)
  }

  function Rows(win: Window): int
    requires WellFormed(win)
  {
    VertexCount(win.pixelMin.y, win.pixelMax.y, win.pixelStep.y)
  }

  /** The k-th vertex of a row-major grid w vertices wide laid over the window. */
  function SampleAt(hm: HeightMap, win: Window, w: int, k: int): Vertex
    requires w >= 1 && k >= 0
  {
    var px := win.pixelMin.x + (k % w) * win.pixelStep.x;
    var py := win.pixelMin.y + (k / w) * win.pixelStep.y;
    Vertex(px, py, hm.red(px, py))
  }

  /** The vertex list of a block mesh: one sample per grid point, row by row. */
  function Samples(hm: HeightMap, win: Window): seq<Vertex>
    requires WellFormed(win)
  {
    var w, h := Columns(win), Rows(win);
    seq(w * h, k requires 0 <= k < w * h => SampleAt(hm, win, w, k))
  }

  /**
   * The six triangle entries of cell (x, y) in a grid w vertices wide, in the order the index
   * pass writes them: two triangles over the cell's four corners.
   */
  function CellIndexes(w: int, x: int, y: int, split: Split): seq<int>
  {
    var topLeft, bottomLeft := y * w + x, (y + 1) * w + x;
    match split
    case MainDiagonal =>
      [topLeft, bottomLeft, bottomLeft + 1, topLeft, bottomLeft + 1, topLeft + 1]
    case AntiDiagonal =>
      [topLeft, bottomLeft, topLeft + 1, bottomLeft, bottomLeft + 1, topLeft + 1]
  }

  /** The entries of the first n cells of row y, cell after cell. */
  function RowIndexes(w: int, y: int, n: nat, split: Split): seq<int>
  {
    if n == 0 then [] else RowIndexes(w, y, n - 1, split) + CellIndexes(w, n - 1, y, split)
  }

  /** The entries of the first m rows of cells of a grid w vertices wide, row after row. */
  function GridIndexes(w: int, m: nat, split: Split): seq<int>
    requires w >= 1
  {
    if m == 0 then [] else GridIndexes(w, m - 1, split) + RowIndexes(w, m - 1, w - 1, split)
  }

  /** The triangle list of a w-by-h vertex grid: two triangles for each of its (w-1)*(h-1) cells. */
  function Triangles(w: int, h: int, split: Split): seq<int>
    requires w >= 1 && h >= 1
  {
    GridIndexes(w, h - 1, split)
  }

  /** Offset (dx, dy) of the corner that the j-th of a cell's six triangle entries names. */
  function CornerOffset(split: Split, j: int): Vector2Int
    requires 0 <= j < 6
  {
    match split
    case MainDiagonal =>
      [Vector2Int(0, 0), Vector2Int(0, 1), Vector2Int(1, 1),
       Vector2Int(0, 0), Vector2Int(1, 1), Vector2Int(1, 0)][j]
    case AntiDiagonal =>
      [Vector2Int(0, 0), Vector2Int(0, 1), Vector2Int(1, 0),
       Vector2Int(0, 1), Vector2Int(1, 1), Vector2Int(1, 0)][j]
  }

  /** The mesh CreateBlockMesh builds for a window. */
  function BlockMesh(hm: HeightMap, win: Window, split: Split): Mesh
    requires WellFormed(win)
  {
    Mesh(Samples(hm, win), Triangles(Columns(win), Rows(win), split))
  }

  /** Vertex index of corner (x + dx, y + dy) in a grid w vertices wide. */
  function Corner(w: int, x: int, y: int, dx: int, dy: int): int
  {
    (y + dy) * w + (x + dx)
  }

  /** Where vertex v sits in the vertex grid (column, row). */
  function GridPoint(w: int, v: int): Vector2Int
    requires w >= 1
  {
    Vector2Int(v % w, v / w)
  }

  /**
   * The vertical component of (b - a) x (c - a) when grid point (x, y) is placed at world
   * position (x, height, y), as CreateBlockMesh places pixel (x, y) at (x * quadSize.x, ..,
   * y * quadSize.y). It does not depend on the heights; a positive value means the triangle's
   * normal points upwards.
   */
  function Upward(a: Vector2Int, b: Vector2Int, c: Vector2Int): int
  {
    var ab, ac := Vector2Int(b.x - a.x, b.y - a.y), Vector2Int(c.x - a.x, c.y - a.y);
    ab.y * ac.x - ab.x * ac.y
  }

  predicate Distinct3(a: int, b: int, c: int)
  {
    a != b && b != c && a != c
  }

  // ---------------------------------------------------------------------------------------------
  // The vertex list

  /** The sample at grid point (col, row) is stored at index row * w + col: the list is row-major. */
  lemma SamplesRowMajor(hm: HeightMap, win: Window, row: int, col: int)
    requires WellFormed(win)
    requires 0 <= row < Rows(win) && 0 <= col < Columns(win)
    ensures row * Columns(win) + col < |Samples(hm, win)|
    ensures var px := win.pixelMin.x + col * win.pixelStep.x;
            var py := win.pixelMin.y + row * win.pixelStep.y;
            Samples(hm, win)[row * Columns(win) + col] == Vertex(px, py, hm.red(px, py))
  {
    var w, h := Columns(win), Rows(win);
    DivMod(row, w, col);
    MulMonotone(row, h - 1, w);
  }

  /** Index k of a row-major grid w wide and h high is column k % w of row k / w. */
  lemma GridIndex(k: int, w: int, h: int)
    requires w >= 1 && 0 <= k < w * h
    ensures 0 <= k % w < w && 0 <= k / w < h
    ensures k == (k / w) * w + k % w
  {
    if k / w >= h {
      MulMonotone(h, k / w, w);
    }
  }

  /**
   * Every sample lies in the window, on the stride lattice that starts at pixelMin, and carries
   * the height read at its own pixel.
   */
  lemma SamplesInWindow(hm: HeightMap, win: Window, k: int)
    requires WellFormed(win)
    requires 0 <= k < |Samples(hm, win)|
    ensures var v := Samples(hm, win)[k];
            win.pixelMin.x <= v.px <= win.pixelMax.x && win.pixelMin.y <= v.py <= win.pixelMax.y &&
            (v.px - win.pixelMin.x) % win.pixelStep.x == 0 &&
            (v.py - win.pixelMin.y) % win.pixelStep.y == 0 &&
            v.normalizedHeight == hm.red(v.px, v.py)
  {
    var w, h := Columns(win), Rows(win);
    var sx, sy := win.pixelStep.x, win.pixelStep.y;
    GridIndex(k, w, h);
    var col, row := k % w, k / w;
    var v := Samples(hm, win)[k];
    assert v.px == win.pixelMin.x + col * sx && v.py == win.pixelMin.y + row * sy;
    MulMonotone(col, w - 1, sx);
    MulMonotone(row, h - 1, sy);
    DivMod(col, sx, 0);
    DivMod(row, sy, 0);
  }

  lemma SamplesEndAtMax(hm: HeightMap, win: Window)
    requires WellFormed(win)
    requires (win.pixelMax.x - win.pixelMin.x) % win.pixelStep.x == 0
    requires (win.pixelMax.y - win.pixelMin.y) % win.pixelStep.y == 0
    ensures |Samples(hm, win)| >= 1
    ensures Samples(hm, win)[0].px == win.pixelMin.x && Samples(hm, win)[0].py == win.pixelMin.y
    ensures var last := Samples(hm, win)[|Samples(hm, win)| - 1];
            last.px == win.pixelMax.x && last.py == win.pixelMax.y
  {
    var w, h := Columns(win), Rows(win);
    var sx, sy := win.pixelStep.x, win.pixelStep.y;
    var spanX, spanY := win.pixelMax.x - win.pixelMin.x, win.pixelMax.y - win.pixelMin.y;
    assert spanX == (spanX / sx) * sx;
    assert spanY == (spanY / sy) * sy;
    StepCount(spanX, sx, w - 1);
    StepCount(spanX, sx, w);
    StepCount(spanY, sy, h - 1);
    StepCount(spanY, sy, h);
    assert w - 1 == spanX / sx;
    assert h - 1 == spanY / sy;
    MulMonotone(1, h, w);
    SamplesRowMajor(hm, win, 0, 0);
    SamplesRowMajor(hm, win, h - 1, w - 1);
    assert (h - 1) * w + (w - 1) == w * h - 1;
  }

  // ---------------------------------------------------------------------------------------------
  // The triangle list

  lemma {:induction false} RowIndexesLength(w: int, y: int, n: nat, split: Split)
    ensures |RowIndexes(w, y, n, split)| == 6 * n
  {
    if n > 0 {
      RowIndexesLength(w, y, n - 1, split);
    }
  }

  lemma {:induction false} GridIndexesLength(w: int, m: nat, split: Split)
    requires w >= 1
    ensures |GridIndexes(w, m, split)| == 6 * (m * (w - 1))
  {
    if m > 0 {
      GridIndexesLength(w, m - 1, split);
      RowIndexesLength(w, m - 1, w - 1, split);
      MulSucc(m, w - 1);
    }
  }

  /** Writing cell x after the first x cells of row y gives the first x + 1 cells. */
  lemma RowIndexesStep(done: seq<int>, w: int, y: int, x: nat, split: Split)
    ensures done + RowIndexes(w, y, x + 1, split) == (done + RowIndexes(w, y, x, split)) + CellIndexes(w, x, y, split)
  {
    assert RowIndexes(w, y, x + 1, split) == RowIndexes(w, y, x, split) + CellIndexes(w, x, y, split);
  }

  /** Within a row, cell x (x < n) holds entries 6 * x to 6 * x + 5. */
  lemma {:induction false} RowIndexesAt(w: int, y: int, n: nat, split: Split, x: int, j: int)
    requires 0 <= x < n && 0 <= j < 6
    ensures 6 * x + j < |RowIndexes(w, y, n, split)|
    ensures RowIndexes(w, y, n, split)[6 * x + j] == CellIndexes(w, x, y, split)[j]
  {
    var prior, cell := RowIndexes(w, y, n - 1, split), CellIndexes(w, n - 1, y, split);
    assert RowIndexes(w, y, n, split) == prior + cell;
    RowIndexesLength(w, y, n - 1, split);
    if x < n - 1 {
      RowIndexesAt(w, y, n - 1, split, x, j);
      assert 6 * x + j < |prior|;
    }
  }

  /** Within the first m rows, row y (y < m) follows the rows before it. */
  lemma {:induction false} GridRowAt(w: int, m: nat, split: Split, y: nat, i: int)
    requires w >= 1 && y < m && 0 <= i < |RowIndexes(w, y, w - 1, split)|
    ensures |GridIndexes(w, y, split)| + i < |GridIndexes(w, m, split)|
    ensures GridIndexes(w, m, split)[|GridIndexes(w, y, split)| + i] == RowIndexes(w, y, w - 1, split)[i]
  {
    var prior := GridIndexes(w, m - 1, split);
    assert GridIndexes(w, m, split) == prior + RowIndexes(w, m - 1, w - 1, split);
    if y < m - 1 {
      GridRowAt(w, m - 1, split, y, i);
    }
  }

  /** Within the first m rows, cell (x, y) (y < m) holds the six entries after the rows before it and cells 0 .. x - 1 of its row. */
  lemma GridIndexesAt(w: int, m: nat, split: Split, x: int, y: nat, j: int)
    requires 0 <= x < w - 1 && y < m && 0 <= j < 6
    ensures |GridIndexes(w, y, split)| + 6 * x + j < |GridIndexes(w, m, split)|
    ensures GridIndexes(w, m, split)[|GridIndexes(w, y, split)| + 6 * x + j] == CellIndexes(w, x, y, split)[j]
  {
    RowIndexesAt(w, y, w - 1, split, x, j);
    GridRowAt(w, m, split, y, 6 * x + j);
  }

  /** The list holds (w - 1) * (h - 1) cells of six entries each. */
  lemma TrianglesLength(w: int, h: int, split: Split)
    requires w >= 1 && h >= 1
    ensures |Triangles(w, h, split)| == 6 * ((h - 1) * (w - 1))
  {
    GridIndexesLength(w, h - 1, split);
  }

  /** Cell (x, y) writes its six entries at 6 * (y * (w - 1) + x) onwards. */
  lemma TriangleEntryAt(w: int, h: int, split: Split, x: int, y: int, j: int)
    requires 0 <= x < w - 1 && 0 <= y < h - 1 && 0 <= j < 6
    ensures 6 * (y * (w - 1) + x) + j < |Triangles(w, h, split)|
    ensures Triangles(w, h, split)[6 * (y * (w - 1) + x) + j] == CellIndexes(w, x, y, split)[j]
  {
    GridIndexesLength(w, y, split);
    GridIndexesAt(w, h - 1, split, x, y, j);
  }

  /** Cell (x, y) of a grid of cw-by-ch cells has a row-major number below cw * ch. */
  lemma CellBound(cw: int, ch: int, x: int, y: int)
    requires 0 <= x < cw && 0 <= y < ch
    ensures 0 <= y * cw + x < cw * ch
  {
    MulMonotone(y + 1, ch, cw);
  }

  /**
   * Cell (x, y) writes its six entries at 6 * (y * (w - 1) + x) onwards: two triangles over the
   * cell's four corners y * w + x, y * w + x + 1, (y + 1) * w + x and (y + 1) * w + x + 1. The
   * main split's triangles share the diagonal from (x, y) to (x + 1, y + 1), the anti split's
   * the diagonal from (x, y + 1) to (x + 1, y). Each triangle has three distinct vertices.
   */
  lemma CellTriangles(w: int, h: int, split: Split, x: int, y: int)
    requires 0 <= x < w - 1 && 0 <= y < h - 1
    ensures var base, t := 6 * (y * (w - 1) + x), Triangles(w, h, split);
            base + 6 <= |t| &&
            t[base] == y * w + x && t[base + 1] == (y + 1) * w + x &&
            (split == MainDiagonal ==>
               t[base + 2] == (y + 1) * w + x + 1 &&
               t[base + 3] == y * w + x && t[base + 4] == (y + 1) * w + x + 1 && t[base + 5] == y * w + x + 1) &&
            (split == AntiDiagonal ==>
               t[base + 2] == y * w + x + 1 &&
               t[base + 3] == (y + 1) * w + x && t[base + 4] == (y + 1) * w + x + 1 && t[base + 5] == y * w + x + 1)
    ensures var base, t := 6 * (y * (w - 1) + x), Triangles(w, h, split);
            Distinct3(t[base], t[base + 1], t[base + 2]) &&
            Distinct3(t[base + 3], t[base + 4], t[base + 5])
  {
    TriangleEntryAt(w, h, split, x, y, 0);
    TriangleEntryAt(w, h, split, x, y, 1);
    TriangleEntryAt(w, h, split, x, y, 2);
    TriangleEntryAt(w, h, split, x, y, 3);
    TriangleEntryAt(w, h, split, x, y, 4);
    TriangleEntryAt(w, h, split, x, y, 5);
    MulSucc(y + 1, w);
  }

  /** The j-th entry of a cell names the corner at the split's j-th offset. */
  lemma CellCorner(w: int, x: int, y: int, split: Split, j: int)
    requires 0 <= j < 6
    ensures var o := CornerOffset(split, j);
            CellIndexes(w, x, y, split)[j] == Corner(w, x, y, o.x, o.y)
  {
  }

  /** Entry k of the triangle list is entry k % 6 of cell k / 6, numbered row by row. */
  lemma TriangleEntryOf(w: int, h: int, split: Split, k: int) returns (x: int, y: int)
    requires w >= 1 && h >= 1
    requires 0 <= k < |Triangles(w, h, split)|
    ensures 0 <= x < w - 1 && 0 <= y < h - 1
    ensures k == 6 * (y * (w - 1) + x) + k % 6
    ensures Triangles(w, h, split)[k] == CellIndexes(w, x, y, split)[k % 6]
  {
    TrianglesLength(w, h, split);
    var cells := (w - 1) * (h - 1);
    MulSucc(h - 1, w - 1);
    var cell := k / 6;
    assert 0 <= cell < cells;
    assert w == 1 ==> cells == 0;
    GridIndex(cell, w - 1, h - 1);
    x, y := cell % (w - 1), cell / (w - 1);
    TriangleEntryAt(w, h, split, x, y, k % 6);
  }

  /** Every entry of the triangle list names a vertex of the w-by-h grid. */
  lemma TrianglesInRange(w: int, h: int, split: Split, k: int)
    requires w >= 1 && h >= 1
    requires 0 <= k < |Triangles(w, h, split)|
    ensures 0 <= Triangles(w, h, split)[k] < w * h
  {
    var x, y := TriangleEntryOf(w, h, split, k);
    CellCorner(w, x, y, split, k % 6);
    var o := CornerOffset(split, k % 6);
    MulMonotone(y + o.y, h - 1, w);
    MulSucc(h, w);
  }

  /** Corner (x + dx, y + dy) of a cell sits at that grid point. */
  lemma CornerGridPoint(w: int, x: int, y: int, dx: int, dy: int)
    requires 0 <= x < w - 1 && 0 <= y && 0 <= dx <= 1 && 0 <= dy <= 1
    ensures GridPoint(w, Corner(w, x, y, dx, dy)) == Vector2Int(x + dx, y + dy)
  {
    DivMod(y + dy, w, x + dx);
  }

  /**
   * Vertex i of triangle number t sits at the origin of the triangle's cell, t / 2 in row-major
   * order, plus the offset the split gives that corner.
   */
  lemma TriangleCorner(w: int, h: int, split: Split, t: int, i: int)
    requires w >= 1 && h >= 1 && 0 <= i < 3
    requires 0 <= t && 3 * t + 2 < |Triangles(w, h, split)|
    ensures w >= 2
    ensures var o := CornerOffset(split, 3 * (t % 2) + i);
            GridPoint(w, Triangles(w, h, split)[3 * t + i])
              == Vector2Int((t / 2) % (w - 1) + o.x, (t / 2) / (w - 1) + o.y)
  {
    var k := 3 * t + i;
    var x, y := TriangleEntryOf(w, h, split, k);
    assert k / 6 == t / 2 && k % 6 == 3 * (t % 2) + i;
    DivMod(y, w - 1, x);
    CellCorner(w, x, y, split, k % 6);
    var o := CornerOffset(split, k % 6);
    CornerGridPoint(w, x, y, o.x, o.y);
  }

  /**
   * Triangle number t (entries 3t, 3t+1, 3t+2) faces upwards: with the grid placed in the
   * horizontal plane, the vertical component of its normal is 1, for both splits.
   */
  lemma TrianglesFaceUp(w: int, h: int, split: Split, t: int)
    requires w >= 1 && h >= 1
    requires 0 <= t && 3 * t + 2 < |Triangles(w, h, split)|
    ensures var tri := Triangles(w, h, split);
            Upward(GridPoint(w, tri[3 * t]), GridPoint(w, tri[3 * t + 1]), GridPoint(w, tri[3 * t + 2])) == 1
  {
    var tri := Triangles(w, h, split);
    TriangleCorner(w, h, split, t, 0);
    TriangleCorner(w, h, split, t, 1);
    TriangleCorner(w, h, split, t, 2);
    var x, y := (t / 2) % (w - 1), (t / 2) / (w - 1);
    var j := 3 * (t % 2);
    var o0, o1, o2 := CornerOffset(split, j), CornerOffset(split, j + 1), CornerOffset(split, j + 2);
    UpwardOfCell(x, y, GridPoint(w, tri[3 * t]), GridPoint(w, tri[3 * t + 1]), GridPoint(w, tri[3 * t + 2]),
                 o0.x, o0.y, o1.x, o1.y, o2.x, o2.y);
  }

  /** Upward of three corners of the cell at (x, y), given by their offsets. */
  lemma UpwardOfCell(x: int, y: int, a: Vector2Int, b: Vector2Int, c: Vector2Int,
                     dx0: int, dy0: int, dx1: int, dy1: int, dx2: int, dy2: int)
    requires a == Vector2Int(x + dx0, y + dy0)
    requires b == Vector2Int(x + dx1, y + dy1) && c == Vector2Int(x + dx2, y + dy2)
    ensures Upward(a, b, c) == (dy1 - dy0) * (dx2 - dx0) - (dx1 - dx0) * (dy2 - dy0)
  {
  }

  /** Every triangle entry of a block mesh names one of its vertices. */
  lemma BlockMeshWellFormed(hm: HeightMap, win: Window, split: Split, k: int)
    requires WellFormed(win)
    requires 0 <= k < |BlockMesh(hm, win, split).triangles|
    ensures 0 <= BlockMesh(hm, win, split).triangles[k] < |BlockMesh(hm, win, split).vertices|
  {
    TrianglesInRange(Columns(win), Rows(win), split, k);
  }

  /** The window lies inside the height map. */
  predicate InsideMap(hm: HeightMap, win: Window)
  {
    0 <= win.pixelMin.x <= win.pixelMax.x <= hm.width - 1 && 0 <= win.pixelMin.y <= win.pixelMax.y <= hm.height - 1
  }

  /** The vertex was sampled at a pixel of the height map: GetPixel read an existing pixel. */
  predicate PixelInMap(hm: HeightMap, v: Vertex)
  {
    0 <= v.px < hm.width && 0 <= v.py < hm.height
  }

  /** A window inside the height map samples only pixels of the height map. */
  lemma SampleInMap(hm: HeightMap, win: Window, k: int)
    requires WellFormed(win) && InsideMap(hm, win)
    requires 0 <= k < |Samples(hm, win)|
    ensures PixelInMap(hm, Samples(hm, win)[k])
  {
    SamplesInWindow(hm, win, k);
  }

  /** The mesh of an n by n vertex grid: n * n vertices and (n - 1) * (n - 1) cells of six entries. */
  predicate SquareGrid(mesh: Mesh, n: int)
  {
    |mesh.vertices| == n * n && |mesh.triangles| == 6 * ((n - 1) * (n - 1))
  }

  /** A block n vertices on a side has n * n vertices and 6 * (n - 1) * (n - 1) triangle entries. */
  lemma BlockMeshSize(hm: HeightMap, win: Window, split: Split, n: int)
    requires WellFormed(win) && Columns(win) == n && Rows(win) == n
    ensures SquareGrid(BlockMesh(hm, win, split), n)
  {
    TrianglesLength(n, n, split);
  }
}
