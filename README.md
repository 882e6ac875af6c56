# GeoMipMaps landscape generation in Dafny

A model of the `Landscape` class of the GeoMipMaps Unity project (`Assets/Landscape.cs`).
It covers the code that turns a height-map texture into a GeoMipMap hierarchy of meshes:

- `Landscape.Create` checks the texture. It must be present, between 33x33 and 4097x4097
  pixels, and each side must be 2^k + 1 pixels.
- It then runs the LOD loop. The quad number starts at resolution - 1 and halves after each
  level. The loop stops once a side has 16 quads or fewer.
- Every level is cut into blockNumber.x by blockNumber.y blocks of 16 by 16 quads.
  `LODMeshList` gets one mesh per block, listed blockY major and blockX minor.
- `CreateBlockMesh` samples one block's pixel window at a fixed stride. It fills a row-major
  vertex buffer, then an index buffer holding two triangles per grid cell.

Files:

- `wrappers.dfy`: `Option` and `Result`.
- `intmath.dfy`: powers of two, `Mathf.IsPowerOfTwo`, and the division and multiplication
  facts the proofs use.
- `meshes.dfy` (module `Meshes`): the height map, vertices, meshes and block windows.
  - `BlockMesh` gives the mesh of one window as a function: the `Samples` vertex list and the
    `Triangles` index list.
  - The lemmas prove the vertex order, the index layout, index ranges and triangle
    orientation.
- `lod.dfy` (module `Lod`): `Validate`, the quad number of every level (`QuadNumbers`), the
  window of every block (`BlockWindow`) and the whole `LODMeshList` (`LandscapeMeshes`), all
  as functions.
  - The lemmas give the level count and the quad number of each level.
  - For every accepted height map they prove that each block is a 17 by 17 vertex grid
    inside the texture.
- `landscape.dfy` (module `Landscapes`): class `Landscape` with its `LODMeshList` field.
  - `Create` is imperative, as in the source: the LOD loop, then the block loops.
  - `CreateBlockMesh` fills real arrays with its vertex loop and its index loop.
  - Every method is proved against the functions of `Meshes` and `Lod`.

The two compile-time variants of the cell split are one parameter, `split`:

- `MainDiagonal` is the `#else` branch, the one that is compiled.
- `AntiDiagonal` is the `#if f` branch.

Facts about the code that the model states:

- Level i has (resolution - 1) / 2^i = 2^(k-i) quads per side when a side of the height map
  is 2^k + 1 pixels (`Lod.QuadNumberAtLevel`).
- The `x <= pixelMax` loop samples only the stride lattice from pixelMin. It never adds a
  sample at pixelMax when the stride does not reach it (`Meshes.VertexCount`,
  `Meshes.VertexCountSpan`). For every accepted height map the stride divides the window
  exactly (`Lod.LevelWindow`), so the last sample is pixelMax (`Meshes.SamplesEndAtMax`).
- `CreateBlockMesh` checks neither its window nor the pixels it samples. The model proves
  neither can go wrong for an accepted map (`Lod.LevelWindow`,
  `Lod.AcceptedSamplesInHeightMap`).
- The three exceptions of `Create` are the three cases of `Lod.CreateError`, checked in the
  source's order.

## Model

The contracts below are stated against these reference functions. They carry no contract of
their own, so the table has no row for them:

- `Meshes.Samples` is the vertex loop (`Assets/Landscape.cs:99-116`).
- `Meshes.CellIndexes` is one cell of either split (124-139).
- `Meshes.Triangles` is the index loop (117-142).
- `Meshes.BlockMesh` is `CreateBlockMesh` (83-150).
- `Lod.LevelMeshes` is one pass of the LOD loop (45-72).
- `Lod.Levels` and `Lod.LandscapeMeshes` are the whole LOD loop (40-78).
- `IntMath.IsPowerOfTwo` is the `Mathf.IsPowerOfTwo` call (34).

| member | source | states |
|---|---|---|
| Lod.Validate | Assets/Landscape.cs:20-38 | Null input gives NullHeightMap. A side outside 33..4097 gives ResolutionOutOfRange. Otherwise a side that is not 2^k + 1 gives NotPowerOfTwoPlusOne. Every case is an if-and-only-if. It succeeds exactly on valid resolutions and returns the resolution. |
| Lod.PowerOfTwoPlusOneIff | Assets/Landscape.cs:34 | `IsPowerOfTwo(n - 1)` holds exactly when n = 2^k + 1 for some k. |
| Lod.ValidShape | Assets/Landscape.cs:28-38 | An accepted resolution is 2^a + 1 by 2^b + 1 with 5 <= a, b <= 12. |
| Lod.QuadNumbers | Assets/Landscape.cs:40-77 | Every quad number the LOD loop visits is above 16 on both axes and at most the starting quad number. |
| Lod.LevelsLength | Assets/Landscape.cs:43-78 | The loop builds one level per quad number it visits. |
| Lod.LevelsAt | Assets/Landscape.cs:43-78 | Level l of the loop fits in the height map and holds the block meshes of the l-th quad number. |
| Lod.LevelsStep | Assets/Landscape.cs:72-77 | One pass of the loop moves the current level from the levels still to build to the end of those built. |
| Lod.LevelsEnd | Assets/Landscape.cs:43 | When a side has 16 quads or fewer, no level is left to build. |
| Lod.QuadNumbersOfPowersLength | Assets/Landscape.cs:40-77 | From 2^a by 2^b quads the loop runs min(a, b) - 4 times, or not at all when min(a, b) < 5. |
| Lod.QuadNumbersOfPowersAt | Assets/Landscape.cs:40-77 | From 2^a by 2^b quads, level l has 2^(a-l) by 2^(b-l) quads. |
| Lod.LevelCount | Assets/Landscape.cs:40-78 | A 2^a + 1 by 2^b + 1 height map (5 <= a, b <= 12) gets min(a, b) - 4 levels, between 1 and 8. Level l has 2^(a-l) by 2^(b-l) quads. |
| Lod.QuadNumberAtLevel | Assets/Landscape.cs:40-77 | Level l's quad number is exactly (resolution - 1) / 2^l on each axis. |
| Lod.AcceptedHasLevels | Assets/Landscape.cs:20-78 | Every accepted height map gets at least one and at most eight levels. |
| Lod.LevelShape | Assets/Landscape.cs:40-77 | Level l of an accepted 2^a + 1 by 2^b + 1 map has 2^(a-l) by 2^(b-l) quads, with l + 5 <= a, b. |
| Lod.BlockWindow | Assets/Landscape.cs:45-58 | The window passed to CreateBlockMesh has a positive stride and pixelMin <= pixelMax. |
| Lod.BlockRow | Assets/Landscape.cs:55-69 | One block row has n windows, each well formed. |
| Lod.BlockRows | Assets/Landscape.cs:53-70 | Every window of the first m block rows is well formed. |
| Lod.LevelWindows | Assets/Landscape.cs:53-70 | Every window of a level is well formed. |
| Lod.BlockRowAt | Assets/Landscape.cs:55-68 | Entry blockX of a block row is the window of block (blockX, blockY). |
| Lod.BlockRowsLength | Assets/Landscape.cs:53-70 | m block rows hold m * blockNumber.x windows. |
| Lod.BlockRowsAt | Assets/Landscape.cs:53-70 | Block row blockY follows all the earlier rows, entry by entry. |
| Lod.MeshesOfConcat | Assets/Landscape.cs:68 | Adding windows to a list adds their meshes in the same order. |
| Lod.LevelMeshesLength | Assets/Landscape.cs:45-70 | A level holds blockNumber.x * blockNumber.y meshes. |
| Lod.LevelMeshesRowMajor | Assets/Landscape.cs:53-68 | Block (blockX, blockY) sits at index blockY * blockNumber.x + blockX, and its mesh is the one for its window. |
| Lod.LevelBlock | Assets/Landscape.cs:53-72 | Mesh k of level l is the block mesh of some block (blockX, blockY) of that level's quad number. |
| Lod.AxisWindow | Assets/Landscape.cs:45-58 | At level l of a 2^a + 1 pixel side there are 2^(a-l-4) >= 2 blocks. Each is 16 * 2^l pixels long with stride 2^l, so 17 vertices, and it lies within 0..2^a. |
| Lod.LevelWindow | Assets/Landscape.cs:45-58 | At level l every block window has stride 2^l and a span of 16 * 2^l pixels on both axes. It is 17 by 17 vertices and lies inside the height map. |
| Lod.BlockSeams | Assets/Landscape.cs:57-58 | A block's pixelMax equals the next block's pixelMin along x and along y, so neighbouring blocks share their edge pixels. |
| Lod.AcceptedBlockWindow | Assets/Landscape.cs:45-72 | For an accepted map, mesh k of level l is the mesh of a well-formed 17 by 17 window inside the height map. |
| Lod.AcceptedBlockMeshSize | Assets/Landscape.cs:88-95 | For an accepted map, every block mesh has 17 * 17 vertices and 6 * 16 * 16 triangle entries. |
| Lod.AcceptedSamplesInHeightMap | Assets/Landscape.cs:100-105 | For an accepted map, every vertex of every block mesh comes from an existing pixel, so GetPixel never reads past the texture. |
| Meshes.VertexCount | Assets/Landscape.cs:88-92 | vertexNumber along an axis is at least 1. |
| Meshes.VertexCountSpan | Assets/Landscape.cs:88-102 | The vertexNumber samples min, min + step, ... all lie within [min, max], and one more would pass max. This is exactly the count of the `x <= pixelMax` loop. |
| Meshes.SamplesRowMajor | Assets/Landscape.cs:99-115 | The sample at grid column col and row row is stored at row * w + col. It was read at (min.x + col * step.x, min.y + row * step.y). |
| Meshes.SamplesInWindow | Assets/Landscape.cs:100-105 | Every sample lies in the window and on the stride lattice from pixelMin. It carries the red channel of its own pixel. |
| Meshes.SamplesEndAtMax | Assets/Landscape.cs:100-102 | When the stride divides the span, the first sample is pixelMin and the last is pixelMax. |
| Meshes.SampleInMap | Assets/Landscape.cs:105 | A window inside the height map samples only existing pixels. |
| Meshes.RowIndexesLength | Assets/Landscape.cs:121-141 | n cells of a row write 6 * n entries. |
| Meshes.GridIndexesLength | Assets/Landscape.cs:119-142 | m rows of cells write 6 * m * (w - 1) entries. |
| Meshes.RowIndexesStep | Assets/Landscape.cs:121-141 | One more cell of the x loop extends the row's entries by that cell's six entries. |
| Meshes.RowIndexesAt | Assets/Landscape.cs:121-141 | Within a row, cell x holds entries 6x to 6x + 5. |
| Meshes.GridRowAt | Assets/Landscape.cs:119-142 | Row y's entries follow those of all the earlier rows. |
| Meshes.GridIndexesAt | Assets/Landscape.cs:119-142 | Cell (x, y)'s six entries come right after the earlier rows and the earlier cells of its own row. |
| Meshes.TrianglesLength | Assets/Landscape.cs:95 | The index buffer is (w - 1) * (h - 1) * 6 long. |
| Meshes.TriangleEntryAt | Assets/Landscape.cs:117-141 | Cell (x, y) writes its six entries at 6 * (y * (w - 1) + x) onwards. |
| Meshes.CellTriangles | Assets/Landscape.cs:124-139 | The six entries of cell (x, y), written out for each split, form two triangles of three distinct vertices. The default split shares the diagonal (x, y)-(x + 1, y + 1). The alternate split shares (x, y + 1)-(x + 1, y). |
| Meshes.CellCorner | Assets/Landscape.cs:124-139 | Entry j of a cell names the corner at that split's j-th offset. |
| Meshes.TriangleEntryOf | Assets/Landscape.cs:117-141 | Entry k of the index buffer is entry k % 6 of cell k / 6, counted in row-major order. |
| Meshes.TrianglesInRange | Assets/Landscape.cs:117-141 | Every index entry names a vertex: 0 <= entry < w * h. |
| Meshes.TriangleCorner | Assets/Landscape.cs:124-139 | Vertex i of triangle t sits at the grid point of its cell's corner. |
| Meshes.TrianglesFaceUp | Assets/Landscape.cs:124-139 | With grid point (col, row) placed at (col, height, row), every triangle of either split has a normal whose vertical part is 1. Pixels are the grid points scaled by a positive stride and shifted by pixelMin, so the sign is the same for pixels. |
| Meshes.BlockMeshWellFormed | Assets/Landscape.cs:144-147 | Every triangle entry of a block mesh indexes its vertex list. |
| Meshes.BlockMeshSize | Assets/Landscape.cs:93-95 | An n by n vertex grid has n * n vertices and 6 * (n - 1) * (n - 1) triangle entries. |
| Landscapes.Landscape.constructor | Assets/Landscape.cs:8 | A new landscape has an empty LODMeshList. |
| Landscapes.Landscape.Create | Assets/Landscape.cs:17-81 | Fails exactly when Validate fails, with the same error. On success it returns a fresh landscape whose LODMeshList is LandscapeMeshes of the height map. |
| Landscapes.Landscape.BuildLevels | Assets/Landscape.cs:40-78 | The LOD loop leaves LODMeshList equal to every level, finest first. |
| Landscapes.Landscape.CreateLevel | Assets/Landscape.cs:45-71 | One pass of the LOD loop returns that level's block meshes, blockY major and blockX minor. |
| Landscapes.Landscape.CreateBlockRow | Assets/Landscape.cs:55-69 | The blockX loop returns the meshes of block row blockY's windows in order. |
| Landscapes.Landscape.CreateBlockMesh | Assets/Landscape.cs:83-150 | The mesh built is BlockMesh of the window: Samples as vertices, Triangles as indexes. |
| Landscapes.Landscape.FillVertices | Assets/Landscape.cs:99-116 | The vertex loop fills positions with exactly Samples of the window, in row-major order. |
| Landscapes.Landscape.FillIndexes | Assets/Landscape.cs:117-142 | The index loop fills the whole index buffer with Triangles(w, h, split). |
| Landscapes.Landscape.FillRow | Assets/Landscape.cs:121-141 | The x loop writes row y's cells after the entries already written and returns the counter advanced by 6 * (w - 1). It leaves the entries before start and after the returned counter as they were. |
| Landscapes.Landscape.WriteCell | Assets/Landscape.cs:123-140 | One cell writes its six entries at the counter and returns the counter plus 6. Every other entry of the buffer is unchanged. |
| Landscapes.Landscape.WriteMainDiagonalCell | Assets/Landscape.cs:132-139 | The `#else` branch writes (x,y), (x,y+1), (x+1,y+1), (x,y), (x+1,y+1), (x+1,y) and nothing else. |
| Landscapes.Landscape.WriteAntiDiagonalCell | Assets/Landscape.cs:124-131 | The `#if f` branch writes (x,y), (x,y+1), (x+1,y), (x,y+1), (x+1,y+1), (x+1,y) and nothing else. |

## Left out

- World positions, heights and texture coordinates. Float arithmetic is not modelled.
  - A vertex records the pixel it was sampled at and the red value read there.
  - `baseHeight + normalizedHeight * totalHeight`, `x * quadSize.x`, `y * quadSize.y` and
    `size / resolution` are not computed.
  - No claim is made about the texture-coordinate range. Texture coordinates divide the pixel
    coordinate by `w - 1`, so they leave [0, 1] for blocks that do not start at pixel 0.
- `Mesh.RecalculateNormals` is a call into Unity and is not modelled.
  `Meshes.TrianglesFaceUp` states only the orientation of the triangles.
- `Texture2D.GetPixel` is a function parameter of the height map, `red`. Its clamping or
  wrapping outside the texture is not modelled. The model proves the landscape never samples
  there instead.
- `Debug.Log`, `mesh.name`, the `ONLY_LOD0` define and `CreateTestLandscapeObjects` are left
  out. They do logging, naming, a debug switch, and asset loading and scene building, so they
  carry no logic of the core.
- `Mathf.IsPowerOfTwo` is modelled on its mathematical meaning. Its result for 0 does not
  matter, because the range check runs first and only values of at least 32 reach it.
- 32-bit `int` overflow is not modelled. Every product and sum is below 2^24 for resolutions up
  to 4097.
- The exceptions of `Create` are a `Result` value. The source allocates the landscape before
  its range checks; the model allocates it at the same point, but an error result returns no
  landscape.
- The preprocessor choice between the two cell splits is a run-time parameter, `split`.
- The loops of `Create` and `CreateBlockMesh` are separate methods. Each method holds one
  loop, or one cell's writes:
  - `BuildLevels` holds the LOD loop.
  - `CreateLevel` holds the blockY loop.
  - `CreateBlockRow` holds the blockX loop.
  - `FillVertices` holds the vertex loops.
  - `FillIndexes` and `FillRow` hold the index loops.
  - `WriteCell` holds one cell.

  The writes to the buffers and the lists happen in the source's order. Two things differ:
  - `CreateBlockRow` recomputes `blockNumber`, `blockPixelSize` and `blockPixelStep` once per
    block row, where the source computes them once per level. The values are the same.
  - `WriteCell` chooses between the two variants at run time, where the source chooses with
    `#if`.
- `List<Mesh>` and `List<List<Mesh>>` are sequences. The capacity hint of
  `new List<Mesh>(blockNumber.x * blockNumber.y)` is not modelled.
- `Assets/Landscape.cs` has no bilinear sampler, no single-block mode and no normal pass of
  its own. Normals come from `Mesh.RecalculateNormals`, left out above.
