/**
 * The `MarchingCubeGenerator` component: a scalar field sampled on a grid,
 * an isolevel, and the vertex and index buffers that `MarchingCubes` fills
 * cell by cell. Each method is proved against the pure description of the
 * mesh in module `Mesh`, applied to `Snapshot()`.
 */
module Generator {
  import opened Vectors
  import opened Tables
  import opened Classification
  import opened Cells
  import opened Mesh

  class MarchingCubeGenerator {
    const gridSizeX: int
    const gridSizeY: int
    const gridSizeZ: int
    const isolevel: real
    const scalarField: array3<real>
    const tables: CaseTables
    var vertices: seq<Vec3>
    var triangles: seq<int>
    /** The field's samples, `samples[x][y][z]`, for the specification. */
    ghost const samples: seq<seq<seq<real>>>

    /** The field has the configured size on every axis and the tables are well formed. */
    ghost predicate Valid()
      reads scalarField
    {
      && tables.Valid()
      && scalarField.Length0 == gridSizeX
      && scalarField.Length1 == gridSizeY
      && scalarField.Length2 == gridSizeZ
      && forall x, y, z | 0 <= x < gridSizeX && 0 <= y < gridSizeY && 0 <= z < gridSizeZ ::
        At(samples, x, y, z) == scalarField[x, y, z]
    }

    /** Index k of the index buffer names vertex k, and every vertex is named once. */
    ghost predicate IndicesNameVertices()
      reads this
    {
      triangles == Indices(0, |vertices|)
    }

    /** The generator after `Start` has allocated and filled the field, before any mesh is built. */
    constructor (sizeX: int, sizeY: int, sizeZ: int, field: array3<real>, level: real, t: CaseTables)
      requires t.Valid()
      requires field.Length0 == sizeX && field.Length1 == sizeY && field.Length2 == sizeZ
      ensures Valid() && IndicesNameVertices()
      ensures gridSizeX == sizeX && gridSizeY == sizeY && gridSizeZ == sizeZ
      ensures scalarField == field && isolevel == level && tables == t
      ensures vertices == [] && triangles == []
    {
      gridSizeX, gridSizeY, gridSizeZ := sizeX, sizeY, sizeZ;
      scalarField := field;
      isolevel := level;
      tables := t;
      vertices, triangles := [], [];
      samples := seq(sizeX, x requires 0 <= x < sizeX reads field =>
        seq(sizeY, y requires 0 <= y < sizeY reads field =>
          seq(sizeZ, z requires 0 <= z < sizeZ reads field => field[x, y, z])));
    }

    /** What a pass reads, as a value. */
    ghost function Snapshot(): Grid
    {
      Grid(gridSizeX, gridSizeY, gridSizeZ, samples, isolevel, tables)
    }

    /**
     * The classification loop of `ProcessCube`: bit i of the index is set
     * exactly when corner i's sample is strictly below the isolevel.
     */
    method Classify(x: int, y: int, z: int) returns (cubeIndex: int)
      requires Valid() && IsCell(gridSizeX, gridSizeY, gridSizeZ, x, y, z)
      ensures 0 <= cubeIndex < ConfigCount
      ensures forall i | 0 <= i < CornerCount ::
        var offset := tables.vertexOffsets[i];
        Bit(cubeIndex, i) == (scalarField[x + offset.x, y + offset.y, z + offset.z] < isolevel)
      ensures cubeIndex == CubeIndex(Snapshot(), x, y, z)
    {
      ghost var g := Snapshot();
      ghost var inside := Inside(g, x, y, z);
      cubeIndex := 0;
      for i := 0 to CornerCount
        invariant cubeIndex == ConfigIndexUpTo(inside, i)
      {
        var offset := tables.vertexOffsets[i];
        OrStep(inside, i);
        InsideUpToAt(g, x, y, z, CornerCount, i);
        if scalarField[x + offset.x, y + offset.y, z + offset.z] < isolevel {
          cubeIndex := BitOr(cubeIndex, Pow2(i));
        }
      }
      CubeIndexBits(g, x, y, z);
    }

    /**
     * The emission loop of `ProcessCube` for the row `edges`: one vertex and
     * the index of that vertex per entry, until the sentinel or the twelfth
     * entry. Earlier buffer entries are left as they were.
     */
    method EmitRow(x: int, y: int, z: int, edges: seq<int>)
      requires tables.Valid() && WalkOk(edges, 0)
      modifies this`vertices, this`triangles
      ensures vertices == old(vertices) + RowVertices(tables, x, y, z, edges, EmitCount(edges))
      ensures triangles == old(triangles) + Indices(|old(vertices)|, EmitCount(edges))
    {
      for i := 0 to MaxEntries
        invariant i <= EmitCount(edges)
        invariant vertices == old(vertices) + RowVertices(tables, x, y, z, edges, i)
        invariant triangles == old(triangles) + Indices(|old(vertices)|, i)
      {
        EmissionStep(edges, i);
        if edges[i] == Sentinel {
          return;
        }
        var edgeStart := AddInt(Vec3i(x, y, z), tables.edges[edges[i]].0);
        var edgeEnd := AddInt(Vec3i(x, y, z), tables.edges[edges[i]].1);
        var vertex := ToVec3(DivInt(AddInt(edgeStart, edgeEnd), 2));
        ConcatAssoc(old(vertices), RowVertices(tables, x, y, z, edges, i), [vertex]);
        vertices := vertices + [vertex];
        triangles := triangles + [|vertices| - 1];
        ConcatAssoc(old(triangles), Indices(|old(vertices)|, i), [|old(vertices)| + i]);
      }
      EmissionStep(edges, MaxEntries);
    }

    /**
     * One cell: classify it, then emit its triangle-table row. The cell's
     * vertices are appended after the earlier ones, each with its own index.
     */
    method ProcessCube(x: int, y: int, z: int)
      requires Valid() && IsCell(gridSizeX, gridSizeY, gridSizeZ, x, y, z)
      modifies this`vertices, this`triangles
      ensures vertices == old(vertices) + Emitted(Snapshot(), x, y, z)
      ensures triangles == old(triangles) + Indices(|old(vertices)|, |Emitted(Snapshot(), x, y, z)|)
    {
      var cubeIndex := Classify(x, y, z);
      EmitRow(x, y, z, tables.triTable[cubeIndex]);
    }

    /**
     * The innermost loop of the pass, over z for one (x, y): the cells
     * (x, y, 0), (x, y, 1), ... in turn.
     */
    method ProcessColumn(x: int, y: int)
      requires Valid() && 0 <= x < CellCount(gridSizeX) && 0 <= y < CellCount(gridSizeY)
      requires IndicesNameVertices()
      modifies this`vertices, this`triangles
      ensures vertices == old(vertices) + ColumnVertices(Snapshot(), x, y, CellCount(gridSizeZ))
      ensures IndicesNameVertices()
    {
      ghost var g := Snapshot();
      var z := 0;
      while z < gridSizeZ - 1
        invariant 0 <= z <= CellCount(gridSizeZ)
        invariant vertices == old(vertices) + ColumnVertices(g, x, y, z)
        invariant triangles == Indices(0, |vertices|)
      {
        ghost var before := vertices;
        ghost var cell := Emitted(g, x, y, z);
        ghost var column := ColumnVertices(g, x, y, z);
        ProcessCube(x, y, z);
        ConcatAssoc(old(vertices), column, cell);
        IndicesAppend(|before|, |cell|);
        AxisVisited(gridSizeZ, z);
        z := z + 1;
      }
      AxisVisited(gridSizeZ, z);
    }

    /** The middle loop of the pass, over y for one x: the columns (x, 0), (x, 1), ... in turn. */
    method ProcessSlice(x: int)
      requires Valid() && 0 <= x < CellCount(gridSizeX)
      requires IndicesNameVertices()
      modifies this`vertices, this`triangles
      ensures vertices == old(vertices) + SliceVertices(Snapshot(), x, CellCount(gridSizeY))
      ensures IndicesNameVertices()
    {
      ghost var g := Snapshot();
      var y := 0;
      while y < gridSizeY - 1
        invariant 0 <= y <= CellCount(gridSizeY)
        invariant vertices == old(vertices) + SliceVertices(g, x, y)
        invariant triangles == Indices(0, |vertices|)
      {
        ProcessColumn(x, y);
        ConcatAssoc(old(vertices), SliceVertices(g, x, y), ColumnVertices(g, x, y, CellCount(gridSizeZ)));
        AxisVisited(gridSizeY, y);
        y := y + 1;
      }
      AxisVisited(gridSizeY, y);
    }

    /**
     * The whole pass: clear both buffers, then process every cell, x
     * outermost, z innermost. The result depends only on the field, the
     * isolevel and the tables, never on what the buffers held before, and
     * index k of the index buffer names vertex k.
     */
    method MarchingCubes()
      requires Valid()
      modifies this`vertices, this`triangles
      ensures vertices == MeshVertices(Snapshot())
      ensures IndicesNameVertices()
      ensures |triangles| == |vertices| && forall k | 0 <= k < |triangles| :: triangles[k] == k
    {
      ghost var g := Snapshot();
      vertices := [];
      triangles := [];
      var x := 0;
      while x < gridSizeX - 1
        invariant 0 <= x <= CellCount(gridSizeX)
        invariant vertices == BlockVertices(g, x)
        invariant triangles == Indices(0, |vertices|)
      {
        ProcessSlice(x);
        AxisVisited(gridSizeX, x);
        x := x + 1;
      }
      AxisVisited(gridSizeX, x);
      IndicesSpec(0, |vertices|);
    }

    /** Running the pass twice on an unchanged field leaves the same buffers as running it once. */
    method MarchingCubesTwice() returns (firstVertices: seq<Vec3>, firstTriangles: seq<int>)
      requires Valid()
      modifies this`vertices, this`triangles
      ensures vertices == firstVertices && triangles == firstTriangles
      ensures vertices == MeshVertices(Snapshot())
    {
      MarchingCubes();
      firstVertices, firstTriangles := vertices, triangles;
      MarchingCubes();
    }
  }
}
