/**
 * What Landscape.Create builds, as functions of the height map: the checks on the resolution,
 * the quad number of every LOD level, the window of every block at a level, and the block meshes
 * of every level. Landscapes.Landscape.Create computes the same thing step by step.
 */
module Lod {
  import opened IntMath
  import opened Wrappers
  import opened Meshes

  /** Quads along each side of a block mesh; a level with fewer quads than this is not built. */
  const BlockQuadNumber := 16
  const MinResolution := 33
  const MaxResolution := 4097

  /** The exceptions Create throws, in the order it checks for them. */
  datatype CreateError =
    | NullHeightMap           // ArgumentNullException
    | ResolutionOutOfRange    // ArgumentException: not within 33x33 to 4097x4097
    | NotPowerOfTwoPlusOne    // ArgumentException: a side is not 2^k + 1

  /** The height map's size in pixels. */
  function Resolution(hm: HeightMap): Vector2Int
  {
    Vector2Int(hm.width, hm.height)
  }

  predicate InRange(res: Vector2Int)
  {
    MinResolution <= res.x <= MaxResolution && MinResolution <= res.y <= MaxResolution
  }

  /** n is 2^k + 1 for some k. */
  ghost predicate PowerOfTwoPlusOne(n: int)
  {
    exists k: nat :: Pow2(k) + 1 == n
  }

  /** The resolutions Create accepts. */
  ghost predicate ValidResolution(res: Vector2Int)
  {
    InRange(res) && PowerOfTwoPlusOne(res.x) && PowerOfTwoPlusOne(res.y)
  }

  /**
   * The argument checks at the top of Create: first the null test, then the range test, then
   * the power-of-two test. On success, the resolution.
   */
  function Validate(heightMap: Option<HeightMap>): (r: Result<Vector2Int, CreateError>)
    ensures r == Err(NullHeightMap) <==> heightMap.None?
    ensures r == Err(ResolutionOutOfRange) <==>
              heightMap.Some? && !InRange(Resolution(heightMap.value))
    ensures r == Err(NotPowerOfTwoPlusOne) <==>
              heightMap.Some? && InRange(Resolution(heightMap.value)) &&
              !(PowerOfTwoPlusOne(heightMap.value.width) && PowerOfTwoPlusOne(heightMap.value.height))
    ensures r.Ok? <==> heightMap.Some? && ValidResolution(Resolution(heightMap.value))
    ensures r.Ok? ==> r.value == Resolution(heightMap.value)
  {
    if heightMap.None? then
      Err(NullHeightMap)
    else
      var resolution := Resolution(heightMap.value);
      PowerOfTwoPlusOneIff(resolution.x);
      PowerOfTwoPlusOneIff(resolution.y);
      if resolution.x > MaxResolution || resolution.y > MaxResolution ||
         resolution.x < MinResolution || resolution.y < MinResolution then
        Err(ResolutionOutOfRange)
      else if !IsPowerOfTwo(resolution.x - 1) || !IsPowerOfTwo(resolution.y - 1) then
        Err(NotPowerOfTwoPlusOne)
      else
        Ok(resolution)
  }

  lemma PowerOfTwoPlusOneIff(n: int)
    ensures IsPowerOfTwo(n - 1) <==> PowerOfTwoPlusOne(n)
  {
    PowerOfTwoIff(n - 1);
    if PowerOfTwoPlusOne(n) {
      var k: nat :| Pow2(k) + 1 == n;
      assert Pow2(k) == n - 1;
    }
    if IsPowerOfTwo(n - 1) {
      var k: nat :| Pow2(k) == n - 1;
      assert Pow2(k) + 1 == n;
    }
  }

  // ---------------------------------------------------------------------------------------------
  // The LOD levels

  function Halve(q: Vector2Int): Vector2Int
  {
    Vector2Int(q.x / 2, q.y / 2)
  }

  /** The quad number of each level the LOD loop builds when it starts from q, finest first. */
  function QuadNumbers(q: Vector2Int): (r: seq<Vector2Int>)
    ensures forall l :: 0 <= l < |r| ==>
              BlockQuadNumber < r[l].x <= q.x && BlockQuadNumber < r[l].y <= q.y
    decreases q.x
  {
    if q.x > BlockQuadNumber && q.y > BlockQuadNumber then [q] + QuadNumbers(Halve(q)) else []
  }

  /** The quad number the loop starts from: one less than the resolution. */
  function InitialQuadNumber(hm: HeightMap): Vector2Int
  {
    Vector2Int(hm.width - 1, hm.height - 1)
  }

  /** Blocks per side at a level: quadNumber / blockQuadNumber. */
  function BlockNumber(q: Vector2Int): Vector2Int
  {
    Vector2Int(q.x / BlockQuadNumber, q.y / BlockQuadNumber)
  }

  /** A level with quad number q can be built on hm: the loop guard holds and q fits in hm. */
  predicate LevelFits(hm: HeightMap, q: Vector2Int)
  {
    BlockQuadNumber < q.x <= hm.width - 1 && BlockQuadNumber < q.y <= hm.height - 1
  }

  /**
   * The arguments of CreateBlockMesh for block (blockX, blockY) of the level with quad number q:
   * blockPixelSize = resolution / blockNumber, blockPixelStep = (resolution - 1) / quadNumber,
   * blockPixelMin = block * blockPixelSize and blockPixelMax = blockPixelMin + blockPixelSize.
   */
  function BlockWindow(res: Vector2Int, q: Vector2Int, blockX: int, blockY: int): (win: Window)
    requires BlockQuadNumber < q.x <= res.x - 1 && BlockQuadNumber < q.y <= res.y - 1
    ensures WellFormed(win)
  {
    var blockNumber := BlockNumber(q);
    var blockPixelSize := Vector2Int(res.x / blockNumber.x, res.y / blockNumber.y);
    var blockPixelStep := Vector2Int((res.x - 1) / q.x, (res.y - 1) / q.y);
    var blockPixelMin := Vector2Int(blockX * blockPixelSize.x, blockY * blockPixelSize.y);
    var blockPixelMax := Vector2Int(blockPixelMin.x + blockPixelSize.x, blockPixelMin.y + blockPixelSize.y);
    StepCount(res.x - 1, q.x, 1);
    StepCount(res.y - 1, q.y, 1);
    Window(blockPixelMin, blockPixelMax, blockPixelStep)
  }

  /** The windows of blocks 0 .. n - 1 of block row blockY, in increasing blockX. */
  function BlockRow(res: Vector2Int, q: Vector2Int, blockY: int, n: nat): (r: seq<Window>)
    requires BlockQuadNumber < q.x <= res.x - 1 && BlockQuadNumber < q.y <= res.y - 1
    ensures |r| == n && forall i :: 0 <= i < n ==> WellFormed(r[i])
  {
    if n == 0 then [] else BlockRow(res, q, blockY, n - 1) + [BlockWindow(res, q, n - 1, blockY)]
  }

  /** The windows of block rows 0 .. m - 1, row after row. */
  function BlockRows(res: Vector2Int, q: Vector2Int, m: nat): (r: seq<Window>)
    requires BlockQuadNumber < q.x <= res.x - 1 && BlockQuadNumber < q.y <= res.y - 1
    ensures forall i :: 0 <= i < |r| ==> WellFormed(r[i])
  {
    if m == 0 then [] else BlockRows(res, q, m - 1) + BlockRow(res, q, m - 1, BlockNumber(q).x)
  }

  /** The block windows of the level with quad number q, blockY major, blockX minor. */
  function LevelWindows(res: Vector2Int, q: Vector2Int): (r: seq<Window>)
    requires BlockQuadNumber < q.x <= res.x - 1 && BlockQuadNumber < q.y <= res.y - 1
    ensures forall i :: 0 <= i < |r| ==> WellFormed(r[i])
  {
    BlockRows(res, q, BlockNumber(q).y)
  }

  /** The block mesh of each window, in the same order. */
  function MeshesOf(hm: HeightMap, split: Split, ws: seq<Window>): seq<Mesh>
    requires forall i :: 0 <= i < |ws| ==> WellFormed(ws[i])
  {
    seq(|ws|, i requires 0 <= i < |ws| => BlockMesh(hm, ws[i], split))
  }

  /** The block meshes of the level with quad number q, blockY major, blockX minor. */
  function LevelMeshes(hm: HeightMap, split: Split, q: Vector2Int): seq<Mesh>
    requires LevelFits(hm, q)
  {
    MeshesOf(hm, split, LevelWindows(Resolution(hm), q))
  }

  /** The levels the LOD loop builds when it starts from quad number q. */
  function Levels(hm: HeightMap, split: Split, q: Vector2Int): seq<seq<Mesh>>
    requires q.x <= hm.width - 1 && q.y <= hm.height - 1
    decreases q.x
  {
    if q.x > BlockQuadNumber && q.y > BlockQuadNumber then
      [LevelMeshes(hm, split, q)] + Levels(hm, split, Halve(q))
    else
      []
  }

  /** One turn of the LOD loop moves the level with quad number q from the levels to do to the levels done. */
  lemma LevelsStep(hm: HeightMap, split: Split, done: seq<seq<Mesh>>, q: Vector2Int)
    requires LevelFits(hm, q)
    ensures done + Levels(hm, split, q) == (done + [LevelMeshes(hm, split, q)]) + Levels(hm, split, Halve(q))
  {
    var level, rest := LevelMeshes(hm, split, q), Levels(hm, split, Halve(q));
    assert Levels(hm, split, q) == [level] + rest;
    assert done + ([level] + rest) == (done + [level]) + rest;
  }

  /** The LOD loop stops when no level is left to build. */
  lemma LevelsEnd(hm: HeightMap, split: Split, q: Vector2Int)
    requires q.x <= hm.width - 1 && q.y <= hm.height - 1
    requires !(q.x > BlockQuadNumber && q.y > BlockQuadNumber)
    ensures Levels(hm, split, q) == []
  {
  }

  /** LODMeshList after Create: every level, finest first. */
  function LandscapeMeshes(hm: HeightMap, split: Split): seq<seq<Mesh>>
  {
    Levels(hm, split, InitialQuadNumber(hm))
  }

  // ---------------------------------------------------------------------------------------------
  // Properties of the plan

  /** Level l of the loop holds the meshes of the l-th quad number. */
  lemma {:induction false} LevelsAt(hm: HeightMap, split: Split, q: Vector2Int, l: int)
    requires q.x <= hm.width - 1 && q.y <= hm.height - 1
    requires 0 <= l < |QuadNumbers(q)|
    ensures |Levels(hm, split, q)| == |QuadNumbers(q)|
    ensures LevelFits(hm, QuadNumbers(q)[l])
    ensures Levels(hm, split, q)[l] == LevelMeshes(hm, split, QuadNumbers(q)[l])
    decreases q.x
  {
    LevelsLength(hm, split, q);
    if l > 0 {
      LevelsAt(hm, split, Halve(q), l - 1);
    }
  }

  lemma {:induction false} LevelsLength(hm: HeightMap, split: Split, q: Vector2Int)
    requires q.x <= hm.width - 1 && q.y <= hm.height - 1
    ensures |Levels(hm, split, q)| == |QuadNumbers(q)|
    decreases q.x
  {
    if q.x > BlockQuadNumber && q.y > BlockQuadNumber {
      LevelsLength(hm, split, Halve(q));
    }
  }

  function Min(a: int, b: int): int
  {
    if a <= b then a else b
  }

  /**
   * Starting from 2^a by 2^b quads, the loop runs min(a, b) - 4 times (none when a side has at
   * most 16 quads).
   */
  lemma {:induction false} QuadNumbersOfPowersLength(a: nat, b: nat)
    ensures |QuadNumbers(Vector2Int(Pow2(a), Pow2(b)))| == if Min(a, b) >= 5 then Min(a, b) - 4 else 0
  {
    var q := Vector2Int(Pow2(a), Pow2(b));
    assert Pow2(4) == 16;
    if a >= 5 && b >= 5 {
      Pow2Monotone(5, a);
      Pow2Monotone(5, b);
      assert Halve(q) == Vector2Int(Pow2(a - 1), Pow2(b - 1));
      QuadNumbersOfPowersLength(a - 1, b - 1);
    } else if a < 5 {
      Pow2Monotone(a, 4);
    } else {
      Pow2Monotone(b, 4);
    }
  }

  /** Starting from 2^a by 2^b quads, level l has 2^(a-l) by 2^(b-l) quads. */
  lemma {:induction false} QuadNumbersOfPowersAt(a: nat, b: nat, l: int)
    requires 0 <= l < |QuadNumbers(Vector2Int(Pow2(a), Pow2(b)))|
    ensures l <= a && l <= b
    ensures QuadNumbers(Vector2Int(Pow2(a), Pow2(b)))[l] == Vector2Int(Pow2(a - l), Pow2(b - l))
  {
    var q := Vector2Int(Pow2(a), Pow2(b));
    QuadNumbersOfPowersLength(a, b);
    if l > 0 {
      assert Halve(q) == Vector2Int(Pow2(a - 1), Pow2(b - 1));
      QuadNumbersOfPowersAt(a - 1, b - 1, l - 1);
      assert QuadNumbers(q)[l] == QuadNumbers(Halve(q))[l - 1];
    }
  }

  /** For an accepted height map, 2^a + 1 by 2^b + 1 pixels. */
  predicate Shape(hm: HeightMap, a: nat, b: nat)
  {
    hm.width == Pow2(a) + 1 && hm.height == Pow2(b) + 1
  }

  /** An accepted resolution is 2^a + 1 by 2^b + 1 with 5 <= a, b <= 12. */
  lemma ValidShape(hm: HeightMap) returns (a: nat, b: nat)
    requires ValidResolution(Resolution(hm))
    ensures Shape(hm, a, b) && 5 <= a <= 12 && 5 <= b <= 12
  {
    a :| Pow2(a) + 1 == hm.width;
    b :| Pow2(b) + 1 == hm.height;
    assert Pow2(4) == 16 && Pow2(13) == 8192;
    if a < 5 { Pow2Monotone(a, 4); }
    if a > 12 { Pow2Monotone(13, a); }
    if b < 5 { Pow2Monotone(b, 4); }
    if b > 12 { Pow2Monotone(13, b); }
  }

  /**
   * For a height map of 2^a + 1 by 2^b + 1 pixels with 5 <= a, b <= 12, Create builds min(a, b) - 4 levels,
   * at least one and at most eight, and level l has (resolution - 1) / 2^l quads on each side.
   */
  lemma LevelCount(hm: HeightMap, a: nat, b: nat)
    requires Shape(hm, a, b) && 5 <= a <= 12 && 5 <= b <= 12
    ensures |QuadNumbers(InitialQuadNumber(hm))| == Min(a, b) - 4
    ensures 1 <= |QuadNumbers(InitialQuadNumber(hm))| <= 8
    ensures forall l :: 0 <= l < |QuadNumbers(InitialQuadNumber(hm))| ==>
              l <= a && l <= b &&
              QuadNumbers(InitialQuadNumber(hm))[l] == Vector2Int(Pow2(a - l), Pow2(b - l))
  {
    assert InitialQuadNumber(hm) == Vector2Int(Pow2(a), Pow2(b));
    QuadNumbersOfPowersLength(a, b);
    forall l | 0 <= l < |QuadNumbers(InitialQuadNumber(hm))|
      ensures l <= a && l <= b &&
              QuadNumbers(InitialQuadNumber(hm))[l] == Vector2Int(Pow2(a - l), Pow2(b - l))
    {
      QuadNumbersOfPowersAt(a, b, l);
    }
  }

  /** Level l's quad number is (resolution - 1) / 2^l: each pass halves it exactly. */
  lemma QuadNumberAtLevel(hm: HeightMap, a: nat, b: nat, l: int)
    requires Shape(hm, a, b) && 5 <= a <= 12 && 5 <= b <= 12
    requires 0 <= l < |QuadNumbers(InitialQuadNumber(hm))|
    ensures QuadNumbers(InitialQuadNumber(hm))[l] ==
              Vector2Int((hm.width - 1) / Pow2(l), (hm.height - 1) / Pow2(l))
  {
    LevelCount(hm, a, b);
    Pow2Div(a, l);
    Pow2Div(b, l);
  }

  /** Create builds at least one level for every height map it accepts. */
  lemma AcceptedHasLevels(hm: HeightMap, split: Split)
    requires Validate(Some(hm)).Ok?
    ensures 1 <= |LandscapeMeshes(hm, split)| <= 8
  {
    var a, b := ValidShape(hm);
    LevelCount(hm, a, b);
    LevelsLength(hm, split, InitialQuadNumber(hm));
  }

  lemma {:induction false} BlockRowAt(res: Vector2Int, q: Vector2Int, blockY: int, n: nat, blockX: int)
    requires BlockQuadNumber < q.x <= res.x - 1 && BlockQuadNumber < q.y <= res.y - 1
    requires 0 <= blockX < n
    ensures BlockRow(res, q, blockY, n)[blockX] == BlockWindow(res, q, blockX, blockY)
  {
    if blockX < n - 1 {
      BlockRowAt(res, q, blockY, n - 1, blockX);
    }
  }

  lemma {:induction false} BlockRowsLength(res: Vector2Int, q: Vector2Int, m: nat)
    requires BlockQuadNumber < q.x <= res.x - 1 && BlockQuadNumber < q.y <= res.y - 1
    ensures |BlockRows(res, q, m)| == m * BlockNumber(q).x
  {
    if m > 0 {
      BlockRowsLength(res, q, m - 1);
      MulSucc(m, BlockNumber(q).x);
    }
  }

  /** Within the first m block rows, row blockY (blockY < m) follows the rows before it. */
  lemma {:induction false} BlockRowsAt(res: Vector2Int, q: Vector2Int, m: nat, blockY: nat, i: int)
    requires BlockQuadNumber < q.x <= res.x - 1 && BlockQuadNumber < q.y <= res.y - 1
    requires blockY < m && 0 <= i < BlockNumber(q).x
    ensures |BlockRows(res, q, blockY)| + i < |BlockRows(res, q, m)|
    ensures BlockRows(res, q, m)[|BlockRows(res, q, blockY)| + i] == BlockRow(res, q, blockY, BlockNumber(q).x)[i]
  {
    var prior := BlockRows(res, q, m - 1);
    assert BlockRows(res, q, m) == prior + BlockRow(res, q, m - 1, BlockNumber(q).x);
    if blockY < m - 1 {
      BlockRowsAt(res, q, m - 1, blockY, i);
    }
  }

  /** Appending windows appends their meshes. */
  lemma MeshesOfConcat(hm: HeightMap, split: Split, ws: seq<Window>, vs: seq<Window>)
    requires forall i :: 0 <= i < |ws| ==> WellFormed(ws[i])
    requires forall i :: 0 <= i < |vs| ==> WellFormed(vs[i])
    ensures forall i :: 0 <= i < |ws + vs| ==> WellFormed((ws + vs)[i])
    ensures MeshesOf(hm, split, ws + vs) == MeshesOf(hm, split, ws) + MeshesOf(hm, split, vs)
  {
    assert forall i :: 0 <= i < |ws + vs| ==> (ws + vs)[i] == if i < |ws| then ws[i] else vs[i - |ws|];
  }

  /** A level holds blockNumber.x * blockNumber.y meshes, one per block. */
  lemma LevelMeshesLength(hm: HeightMap, split: Split, q: Vector2Int)
    requires LevelFits(hm, q)
    ensures |LevelMeshes(hm, split, q)| == BlockNumber(q).x * BlockNumber(q).y
  {
    BlockRowsLength(Resolution(hm), q, BlockNumber(q).y);
    MulSucc(BlockNumber(q).y + 1, BlockNumber(q).x);
  }

  /** Block (blockX, blockY) is listed at blockY * blockNumber.x + blockX: the list is row-major. */
  lemma LevelMeshesRowMajor(hm: HeightMap, split: Split, q: Vector2Int, blockX: int, blockY: int)
    requires LevelFits(hm, q)
    requires 0 <= blockX < BlockNumber(q).x && 0 <= blockY < BlockNumber(q).y
    ensures blockY * BlockNumber(q).x + blockX < |LevelMeshes(hm, split, q)|
    ensures LevelMeshes(hm, split, q)[blockY * BlockNumber(q).x + blockX] ==
              BlockMesh(hm, BlockWindow(Resolution(hm), q, blockX, blockY), split)
  {
    var res := Resolution(hm);
    BlockRowsLength(res, q, blockY);
    BlockRowAt(res, q, blockY, BlockNumber(q).x, blockX);
    BlockRowsAt(res, q, BlockNumber(q).y, blockY, blockX);
  }

  /**
   * One axis of a block window at level l of a side of 2^a + 1 pixels (level l has 2^(a-l)
   * quads): 2^(a-l-4) >= 2 blocks, each 16 * 2^l pixels long with stride 2^l, so 17 vertices
   * long; block i spans pixels i * 16 * 2^l to (i + 1) * 16 * 2^l, inside 0 .. 2^a.
   */
  lemma AxisWindow(a: nat, l: nat, i: int)
    requires l + 5 <= a
    requires 0 <= i < Pow2(a - l) / BlockQuadNumber
    ensures var blockNumber := Pow2(a - l) / BlockQuadNumber;
            var size := (Pow2(a) + 1) / blockNumber;
            var step := Pow2(a) / Pow2(a - l);
            blockNumber >= 2 && blockNumber == Pow2(a - l - 4) &&
            size == 16 * Pow2(l) && step == Pow2(l) &&
            0 <= i * size && i * size + size <= Pow2(a) &&
            VertexCount(i * size, i * size + size, step) == 17
  {
    var blockNumber := Pow2(a - l - 4);
    assert Pow2(4) == 16;
    Pow2Div(a - l, 4);
    assert Pow2(a - l) / BlockQuadNumber == blockNumber;
    Pow2Monotone(1, a - l - 4);
    assert Pow2(1) == 2;
    Pow2Add(l + 4, a - l - 4);
    Pow2Add(4, l);
    DivMod(Pow2(l + 4), blockNumber, 1);
    assert Pow2(a) + 1 == Pow2(l + 4) * blockNumber + 1;
    var size := Pow2(l + 4);
    Pow2Div(a, a - l);
    MulMonotone(i + 1, blockNumber, size);
    MulSucc(i + 1, size);
    MulMonotone(0, i, size);
    DivMod(16, Pow2(l), 0);
  }

  /**
   * Every block window at level l of a height map of 2^a + 1 by 2^b + 1 pixels (quad number
   * 2^(a-l) by 2^(b-l)): stride 2^l on both axes, 16 * 2^l pixels wide and high, so the stride
   * divides the span and the grid is 17 by 17 vertices, and inside the height map:
   * 0 <= pixelMin <= pixelMax <= resolution - 1.
   */
  lemma LevelWindow(hm: HeightMap, a: nat, b: nat, l: nat, q: Vector2Int, blockX: int, blockY: int)
    requires Shape(hm, a, b) && l + 5 <= a && l + 5 <= b && q == Vector2Int(Pow2(a - l), Pow2(b - l))
    requires 0 <= blockX < BlockNumber(q).x && 0 <= blockY < BlockNumber(q).y
    ensures BlockQuadNumber < q.x <= hm.width - 1 && BlockQuadNumber < q.y <= hm.height - 1
    ensures var win := BlockWindow(Resolution(hm), q, blockX, blockY);
            win.pixelStep == Vector2Int(Pow2(l), Pow2(l)) &&
            win.pixelMax.x - win.pixelMin.x == 16 * Pow2(l) &&
            win.pixelMax.y - win.pixelMin.y == 16 * Pow2(l) &&
            InsideMap(hm, win) && Columns(win) == 17 && Rows(win) == 17
  {
    AxisWindow(a, l, blockX);
    AxisWindow(b, l, blockY);
    Pow2Div(a, a - l);
    Pow2Div(b, b - l);
    Pow2Monotone(5, a - l);
    Pow2Monotone(5, b - l);
    Pow2Monotone(a - l, a);
    Pow2Monotone(b - l, b);
    assert Pow2(5) == 32;
  }

  /** Neighbouring blocks share their edge pixels: one block's pixelMax is the next one's pixelMin. */
  lemma BlockSeams(res: Vector2Int, q: Vector2Int, blockX: int, blockY: int)
    requires BlockQuadNumber < q.x <= res.x - 1 && BlockQuadNumber < q.y <= res.y - 1
    ensures BlockWindow(res, q, blockX, blockY).pixelMax.x == BlockWindow(res, q, blockX + 1, blockY).pixelMin.x
    ensures BlockWindow(res, q, blockX, blockY).pixelMax.y == BlockWindow(res, q, blockX, blockY + 1).pixelMin.y
  {
    var bn := BlockNumber(q);
    MulSucc(blockX + 1, res.x / bn.x);
    MulSucc(blockY + 1, res.y / bn.y);
  }

  /** Level l of an accepted height map of 2^a + 1 by 2^b + 1 pixels has 2^(a-l) by 2^(b-l) quads. */
  lemma LevelShape(hm: HeightMap, l: int) returns (a: nat, b: nat)
    requires ValidResolution(Resolution(hm))
    requires 0 <= l < |QuadNumbers(InitialQuadNumber(hm))|
    ensures Shape(hm, a, b) && l + 5 <= a && l + 5 <= b
    ensures QuadNumbers(InitialQuadNumber(hm))[l] == Vector2Int(Pow2(a - l), Pow2(b - l))
  {
    a, b := ValidShape(hm);
    LevelCount(hm, a, b);
  }

  /** Mesh k of level l is the block mesh of block (k % blockNumber.x, k / blockNumber.x). */
  lemma LevelBlock(hm: HeightMap, split: Split, l: int, k: int) returns (q: Vector2Int, blockX: int, blockY: int)
    requires 0 <= l < |LandscapeMeshes(hm, split)|
    requires 0 <= k < |LandscapeMeshes(hm, split)[l]|
    ensures |LandscapeMeshes(hm, split)| == |QuadNumbers(InitialQuadNumber(hm))|
    ensures q == QuadNumbers(InitialQuadNumber(hm))[l] && LevelFits(hm, q)
    ensures 0 <= blockX < BlockNumber(q).x && 0 <= blockY < BlockNumber(q).y
    ensures LandscapeMeshes(hm, split)[l][k] == BlockMesh(hm, BlockWindow(Resolution(hm), q, blockX, blockY), split)
  {
    var q0 := InitialQuadNumber(hm);
    LevelsLength(hm, split, q0);
    LevelsAt(hm, split, q0, l);
    q := QuadNumbers(q0)[l];
    var bn := BlockNumber(q);
    LevelMeshesLength(hm, split, q);
    GridIndex(k, bn.x, bn.y);
    blockX, blockY := k % bn.x, k / bn.x;
    LevelMeshesRowMajor(hm, split, q, blockX, blockY);
  }

  /** The window of mesh k of level l of an accepted height map: 17 by 17 vertices, inside the map. */
  lemma AcceptedBlockWindow(hm: HeightMap, split: Split, l: int, k: int) returns (win: Window)
    requires ValidResolution(Resolution(hm))
    requires 0 <= l < |LandscapeMeshes(hm, split)|
    requires 0 <= k < |LandscapeMeshes(hm, split)[l]|
    ensures WellFormed(win) && LandscapeMeshes(hm, split)[l][k] == BlockMesh(hm, win, split)
    ensures Columns(win) == 17 && Rows(win) == 17
    ensures InsideMap(hm, win)
  {
    var q, blockX, blockY := LevelBlock(hm, split, l, k);
    var a, b := LevelShape(hm, l);
    win := BlockWindow(Resolution(hm), q, blockX, blockY);
    LevelWindow(hm, a, b, l, q, blockX, blockY);
  }

  /**
   * Every block mesh of an accepted height map has 17 * 17 vertices and 16 * 16 cells of six
   * triangle entries each.
   */
  lemma AcceptedBlockMeshSize(hm: HeightMap, split: Split, l: int, k: int)
    requires ValidResolution(Resolution(hm))
    requires 0 <= l < |LandscapeMeshes(hm, split)|
    requires 0 <= k < |LandscapeMeshes(hm, split)[l]|
    ensures SquareGrid(LandscapeMeshes(hm, split)[l][k], 17)
  {
    var win := AcceptedBlockWindow(hm, split, l, k);
    BlockMeshSize(hm, win, split, 17);
  }

  /**
   * Every vertex of every block mesh of an accepted height map was sampled inside the height
   * map, so GetPixel never reads outside the texture.
   */
  lemma AcceptedSamplesInHeightMap(hm: HeightMap, split: Split, l: int, k: int, v: int)
    requires ValidResolution(Resolution(hm))
    requires 0 <= l < |LandscapeMeshes(hm, split)|
    requires 0 <= k < |LandscapeMeshes(hm, split)[l]|
    requires 0 <= v < |LandscapeMeshes(hm, split)[l][k].vertices|
    ensures PixelInMap(hm, LandscapeMeshes(hm, split)[l][k].vertices[v])
  {
    var win := AcceptedBlockWindow(hm, split, l, k);
    SampleInMap(hm, win, v);
  }
}
