/**
 * The Landscape class of Landscape.cs: Create builds the LOD levels of block meshes in place,
 * and CreateBlockMesh fills one block's vertex and index buffers.
 */
module Landscapes {
  import opened IntMath
  import opened Wrappers
  import opened Meshes
  import opened Lod

  class Landscape {
    /** One list of block meshes per LOD level, finest level first. */
    var LODMeshList: seq<seq<Mesh>>

    constructor ()
      ensures LODMeshList == []
    {
      LODMeshList := [];
    }

    /**
     * Checks the height map, then builds one list of block meshes per LOD level: blockNumber.x
     * by blockNumber.y blocks of 16 by 16 quads each, the quad number halving from one level to
     * the next until a side has 16 quads or fewer.
     */
    static method Create(heightMap: Option<HeightMap>, split: Split) returns (r: Result<Landscape, CreateError>)
      ensures r.Err? <==> Validate(heightMap).Err?
      ensures r.Err? ==> r.error == Validate(heightMap).error
      ensures r.Ok? ==> fresh(r.value) && r.value.LODMeshList == LandscapeMeshes(heightMap.value, split)
    {
      if heightMap.None? {
        return Err(NullHeightMap);
      }
      var hm := heightMap.value;
      var landscape := new Landscape();
      var resolution := Vector2Int(hm.width, hm.height);
      if resolution.x > 4097 || resolution.y > 4097 || resolution.x < 33 || resolution.y < 33 {
        assert Validate(heightMap) == Err(ResolutionOutOfRange);
        return Err(ResolutionOutOfRange);
      }
      if !IsPowerOfTwo(resolution.x - 1) || !IsPowerOfTwo(resolution.y - 1) {
        assert Validate(heightMap) == Err(NotPowerOfTwoPlusOne);
        return Err(NotPowerOfTwoPlusOne);
      }
      assert Validate(heightMap).Ok?;
      landscape.BuildLevels(hm, split, resolution);
      return Ok(landscape);
    }

    /**
     * The LOD loop of Create: appends one list of block meshes per level to LODMeshList, the quad
     * number starting at resolution - 1 and halving until a side has 16 quads or fewer.
     */
    method BuildLevels(hm: HeightMap, split: Split, resolution: Vector2Int)
      requires resolution == Resolution(hm) && hm.width >= 2 && hm.height >= 2
      requires LODMeshList == []
      modifies this
      ensures LODMeshList == LandscapeMeshes(hm, split)
    {
      var quadNumber := Vector2Int(resolution.x - 1, resolution.y - 1);
      var LOD := 0;
      assert LODMeshList + Levels(hm, split, quadNumber) == LandscapeMeshes(hm, split);
      while quadNumber.x > 16 && quadNumber.y > 16
        invariant 0 < quadNumber.x <= hm.width - 1 && 0 < quadNumber.y <= hm.height - 1
        invariant LOD == |LODMeshList|
        invariant LODMeshList + Levels(hm, split, quadNumber) == LandscapeMeshes(hm, split)
        decreases quadNumber.x
      {
        var blockMeshes := CreateLevel(hm, split, resolution, quadNumber);
        LevelsStep(hm, split, LODMeshList, quadNumber);
        LODMeshList := LODMeshList + [blockMeshes];
        LOD := LOD + 1;
        quadNumber := Vector2Int(quadNumber.x / 2, quadNumber.y / 2);
      }
      LevelsEnd(hm, split, quadNumber);
    }

    /** The body of the LOD loop: the block meshes of one level, blockY major, blockX minor. */
    static method CreateLevel(hm: HeightMap, split: Split, resolution: Vector2Int, quadNumber: Vector2Int)
      returns (blockMeshes: seq<Mesh>)
      requires resolution == Resolution(hm) && LevelFits(hm, quadNumber)
      ensures blockMeshes == LevelMeshes(hm, split, quadNumber)
    {
      var blockNumber := Vector2Int(quadNumber.x / 16, quadNumber.y / 16);
      blockMeshes := [];
      var blockY := 0;
      while blockY < blockNumber.y
        invariant 0 <= blockY <= blockNumber.y
        invariant blockMeshes == MeshesOf(hm, split, BlockRows(resolution, quadNumber, blockY))
      {
        var row := CreateBlockRow(hm, split, resolution, quadNumber, blockY);
        MeshesOfConcat(hm, split, BlockRows(resolution, quadNumber, blockY), BlockRow(resolution, quadNumber, blockY, blockNumber.x));
        blockMeshes := blockMeshes + row;
        blockY := blockY + 1;
      }
    }

    /** The inner loop of the LOD loop: the block meshes of block row blockY, in increasing blockX. */
    static method CreateBlockRow(hm: HeightMap, split: Split, resolution: Vector2Int, quadNumber: Vector2Int, blockY: int)
      returns (row: seq<Mesh>)
      requires resolution == Resolution(hm) && LevelFits(hm, quadNumber)
      ensures row == MeshesOf(hm, split, BlockRow(resolution, quadNumber, blockY, BlockNumber(quadNumber).x))
    {
      var blockNumber := Vector2Int(quadNumber.x / 16, quadNumber.y / 16);
      var blockPixelSize := Vector2Int(resolution.x / blockNumber.x, resolution.y / blockNumber.y);
      var blockPixelStep := Vector2Int((resolution.x - 1) / quadNumber.x, (resolution.y - 1) / quadNumber.y);
      row := [];
      var blockX := 0;
      while blockX < blockNumber.x
        invariant 0 <= blockX <= blockNumber.x
        invariant row == MeshesOf(hm, split, BlockRow(resolution, quadNumber, blockY, blockX))
      {
        var blockPixelMin := Vector2Int(blockX * blockPixelSize.x, blockY * blockPixelSize.y);
        var blockPixelMax := Vector2Int(blockPixelMin.x + blockPixelSize.x, blockPixelMin.y + blockPixelSize.y);
        ghost var win := BlockWindow(resolution, quadNumber, blockX, blockY);
        assert Window(blockPixelMin, blockPixelMax, blockPixelStep) == win;
        var mesh := CreateBlockMesh(hm, blockPixelMin, blockPixelMax, blockPixelStep, split);
        MeshesOfConcat(hm, split, BlockRow(resolution, quadNumber, blockY, blockX), [win]);
        row := row + [mesh];
        blockX := blockX + 1;
      }
    }

    /**
     * Samples the window from pixelMin to pixelMax (both inclusive) every pixelStep pixels into
     * a row-major vertex buffer, then writes two triangles for every cell of that vertex grid.
     */
    static method CreateBlockMesh(heightMap: HeightMap, pixelMin: Vector2Int, pixelMax: Vector2Int,
                                  pixelStep: Vector2Int, split: Split) returns (mesh: Mesh)
      requires WellFormed(Window(pixelMin, pixelMax, pixelStep))
      ensures mesh == BlockMesh(heightMap, Window(pixelMin, pixelMax, pixelStep), split)
    {
      var pixelNumber := Vector2Int(pixelMax.x - pixelMin.x + 1, pixelMax.y - pixelMin.y + 1);
      var vertexNumber := Vector2Int((pixelNumber.x - 1) / pixelStep.x + 1,
                                     (pixelNumber.y - 1) / pixelStep.y + 1);
      var positions := new Vertex[vertexNumber.x * vertexNumber.y];
      var indexes := new int[(vertexNumber.x - 1) * (vertexNumber.y - 1) * 6];
      var w := vertexNumber.x;
      var h := vertexNumber.y;
      FillVertices(heightMap, pixelMin, pixelMax, pixelStep, w, h, positions);
      FillIndexes(w, h, split, indexes);
      mesh := Mesh(positions[..], indexes[..]);
    }

    /** The vertex pass of CreateBlockMesh: the counter i advances once per sample. */
    static method FillVertices(heightMap: HeightMap, pixelMin: Vector2Int, pixelMax: Vector2Int,
                               pixelStep: Vector2Int, w: int, h: int, positions: array<Vertex>)
      requires WellFormed(Window(pixelMin, pixelMax, pixelStep))
      requires w == Columns(Window(pixelMin, pixelMax, pixelStep))
      requires h == Rows(Window(pixelMin, pixelMax, pixelStep))
      requires positions.Length == w * h
      modifies positions
      ensures positions[..] == Samples(heightMap, Window(pixelMin, pixelMax, pixelStep))
    {
      ghost var win := Window(pixelMin, pixelMax, pixelStep);
      ghost var spanX, spanY := pixelMax.x - pixelMin.x, pixelMax.y - pixelMin.y;
      var i := 0;
      var y := pixelMin.y;
      ghost var row := 0;
      while y <= pixelMax.y
        invariant 0 <= row <= h
        invariant y == pixelMin.y + row * pixelStep.y
        invariant i == row * w && i <= positions.Length
        invariant forall k :: 0 <= k < i ==> positions[k] == SampleAt(heightMap, win, w, k)
        decreases pixelMax.y - y
      {
        assert row < h by {
          StepCount(spanY, pixelStep.y, row);
        }
        var x := pixelMin.x;
        ghost var col := 0;
        while x <= pixelMax.x
          invariant 0 <= col <= w
          invariant x == pixelMin.x + col * pixelStep.x
          invariant i == row * w + col && i <= positions.Length
          invariant forall k :: 0 <= k < i ==> positions[k] == SampleAt(heightMap, win, w, k)
          decreases pixelMax.x - x
        {
          assert col < w by {
            StepCount(spanX, pixelStep.x, col);
          }
          assert i < w * h && SampleAt(heightMap, win, w, i) == Vertex(x, y, heightMap.red(x, y)) by {
            CellBound(w, h, col, row);
            DivMod(row, w, col);
          }
          var normalizedHeight := heightMap.red(x, y);
          positions[i] := Vertex(x, y, normalizedHeight);
          i := i + 1;
          assert x + pixelStep.x == pixelMin.x + (col + 1) * pixelStep.x by {
            MulSucc(col + 1, pixelStep.x);
          }
          x := x + pixelStep.x;
          col := col + 1;
        }
        assert col == w by {
          StepCount(spanX, pixelStep.x, col);
        }
        assert i == (row + 1) * w by {
          MulSucc(row + 1, w);
        }
        assert y + pixelStep.y == pixelMin.y + (row + 1) * pixelStep.y by {
          MulSucc(row + 1, pixelStep.y);
        }
        y := y + pixelStep.y;
        row := row + 1;
      }
      assert row == h by {
        StepCount(spanY, pixelStep.y, row);
      }
      assert i == w * h by {
        MulSucc(h, w);
      }
    }

    /** The index pass of CreateBlockMesh: the counter index advances once per triangle entry. */
    static method FillIndexes(w: int, h: int, split: Split, indexes: array<int>)
      requires w >= 1 && h >= 1
      requires indexes.Length == (w - 1) * (h - 1) * 6
      modifies indexes
      ensures indexes[..] == Triangles(w, h, split)
    {
      var index := 0;
      var y := 0;
      while y < h - 1
        invariant 0 <= y <= h - 1
        invariant index == 6 * (y * (w - 1)) <= indexes.Length
        invariant indexes[..index] == GridIndexes(w, y, split)
      {
        assert index + 6 * (w - 1) == 6 * ((y + 1) * (w - 1)) <= indexes.Length by {
          MulSucc(y + 1, w - 1);
          MulSucc(h - 1, w - 1);
          MulMonotone(y + 1, h - 1, w - 1);
          assert indexes.Length == 6 * ((h - 1) * (w - 1));
        }
        index := FillRow(indexes, index, w, y, split);
        y := y + 1;
      }
      assert index == indexes.Length by {
        MulSucc(h - 1, w - 1);
      }
      assert indexes[..] == indexes[..index];
    }

    /** The inner loop of the index pass: the w - 1 cells of row y, from the running counter on. */
    static method FillRow(indexes: array<int>, start: int, w: int, y: int, split: Split)
      returns (index: int)
      requires w >= 1 && 0 <= start && start + 6 * (w - 1) <= indexes.Length
      modifies indexes
      ensures index == start + 6 * (w - 1)
      ensures indexes[..index] == old(indexes[..start]) + RowIndexes(w, y, w - 1, split)
      ensures indexes[index..] == old(indexes[index..])
    {
      ghost var done := indexes[..start];
      index := start;
      var x := 0;
      while x < w - 1
        invariant 0 <= x <= w - 1
        invariant index == start + 6 * x
        invariant indexes[..index] == done + RowIndexes(w, y, x, split)
        invariant indexes[index..] == old(indexes[index..])
      {
        RowIndexesStep(done, w, y, x, split);
        index := WriteCell(indexes, index, w, x, y, split);
        x := x + 1;
      }
    }

    /**
     * The body of the index pass for cell (x, y): six entries written at the running counter,
     * which it returns advanced past them. The split picks one of the two compile-time variants.
     */
    static method WriteCell(indexes: array<int>, start: int, w: int, x: int, y: int, split: Split)
      returns (index: int)
      requires 0 <= start && start + 6 <= indexes.Length
      modifies indexes
      ensures index == start + 6
      ensures indexes[..index] == old(indexes[..start]) + CellIndexes(w, x, y, split)
      ensures indexes[index..] == old(indexes[index..])
    {
      if split == AntiDiagonal {
        index := WriteAntiDiagonalCell(indexes, start, w, x, y);
      } else {
        index := WriteMainDiagonalCell(indexes, start, w, x, y);
      }
    }

    /** The default variant: triangles (0,0)-(0,1)-(1,1) and (0,0)-(1,1)-(1,0) of the cell. */
    static method WriteMainDiagonalCell(indexes: array<int>, start: int, w: int, x: int, y: int)
      returns (index: int)
      requires 0 <= start && start + 6 <= indexes.Length
      modifies indexes
      ensures index == start + 6
      ensures indexes[..index] == old(indexes[..start]) + CellIndexes(w, x, y, MainDiagonal)
      ensures indexes[index..] == old(indexes[index..])
    {
      var topLeft, bottomLeft := (y * w) + x, ((y + 1) * w) + x;
      index := start;
      indexes[index] := topLeft;
      index := index + 1;
      indexes[index] := bottomLeft;
      index := index + 1;
      indexes[index] := bottomLeft + 1;
      index := index + 1;

      indexes[index] := topLeft;
      index := index + 1;
      indexes[index] := bottomLeft + 1;
      index := index + 1;
      indexes[index] := topLeft + 1;
      index := index + 1;
      assert indexes[start..index] == [topLeft, bottomLeft, bottomLeft + 1, topLeft, bottomLeft + 1, topLeft + 1];
      assert indexes[..index] == indexes[..start] + indexes[start..index];
    }

    /** The alternate variant: triangles (0,0)-(0,1)-(1,0) and (0,1)-(1,1)-(1,0) of the cell. */
    static method WriteAntiDiagonalCell(indexes: array<int>, start: int, w: int, x: int, y: int)
      returns (index: int)
      requires 0 <= start && start + 6 <= indexes.Length
      modifies indexes
      ensures index == start + 6
      ensures indexes[..index] == old(indexes[..start]) + CellIndexes(w, x, y, AntiDiagonal)
      ensures indexes[index..] == old(indexes[index..])
    {
      var topLeft, bottomLeft := (y * w) + x, ((y + 1) * w) + x;
      index := start;
      indexes[index] := topLeft;
      index := index + 1;
      indexes[index] := bottomLeft;
      index := index + 1;
      indexes[index] := topLeft + 1;
      index := index + 1;

      indexes[index] := bottomLeft;
      index := index + 1;
      indexes[index] := bottomLeft + 1;
      index := index + 1;
      indexes[index] := topLeft + 1;
      index := index + 1;
      assert indexes[start..index] == [topLeft, bottomLeft, topLeft + 1, bottomLeft, bottomLeft + 1, topLeft + 1];
      assert indexes[..index] == indexes[..start] + indexes[start..index];
    }
  }
}
