# Marching cubes generator, modelled in Dafny

This project models the marching-cubes pass of the Unity component
`MarchingCubeGenerator` (`Assets/MarchingCubeGenerator.cs`). The pass extracts
a triangle surface from a 3D grid of scalar samples:

- **Classification** (`ProcessCube`, first loop). For one cell, the pass reads
  the samples at the cell's eight corners through the corner-offset table. It
  sets bit i of the configuration index when corner i's sample is strictly
  below the `isolevel`.
- **Emission** (`ProcessCube`, second loop). The pass walks the cell's row of
  the triangle table. It reads at most 12 entries and stops at the first `-1`.
  - For each entry, the cell origin is added to both endpoints of the named
    edge.
  - The pass appends `(edgeStart + edgeEnd) / 2` to `vertices` and appends
    `vertices.Count - 1` to `triangles`.
- **The driver** (`MarchingCubes`). It clears both buffers, then processes
  every cell `(x, y, z)` with `0 <= x < gridSizeX - 1` (likewise y and z),
  with x outermost and z innermost.
- **The edge interpolation helper** (`CulculateVertexPosition`, spelled
  `CalculateVertexPosition` here). It snaps to an endpoint whose sample is
  near the isolevel, and it falls back to the first endpoint on a nearly flat
  edge. Otherwise it returns the linear estimate of the crossing point. The
  pass does not use it: its only call is commented out.

Modules:

- `Vectors`: `Vector3Int` and `Vector3`, with float components as reals. C#'s
  truncating `int / int` is written out as `Quot`.
- `Tables`: the lookup tables as an abstract value, `CaseTables`. `Valid`
  states the shape the pass relies on. `EmitCount` is how many row entries the
  emission loop consumes.
- `Classification`: the configuration index, built as `cubeIndex |= 1 << i`
  over non-negative integers, and its bits.
- `Cells`: what one cell emits, as a function of the tables, the cell origin
  and the configuration.
- `Mesh`: the whole mesh as a function of the field, the isolevel and the
  tables, in visiting order.
- `Generator`: the class `MarchingCubeGenerator`.
  - Its fields are the grid sizes, the `isolevel`, the `float[,,]` field as an
    `array3<real>`, and the `vertices`/`triangles` lists as sequences.
  - Its methods are proved against `Mesh` applied to `Snapshot()`, which is
    the object's inputs as a value.
- `Interpolation`: `CulculateVertexPosition` over reals.

The code departs from textbook marching cubes in three places, and the
model follows the code:

- Textbook marching cubes places each vertex by interpolating along the
  edge. The code places it at `(edgeStart + edgeEnd) / 2`, which divides a
  `Vector3Int` by an `int`. On a cell with non-negative coordinates this is
  the edge's lower endpoint, not its midpoint
  (`Cells.EdgeVertexIsLowerCorner`).
- Textbook marching cubes walks a row until the sentinel. The code stops
  after 12 entries, so a five-triangle row yields four triangles
  (`Tables.FiveTriangleRowTruncated`).
- Textbook implementations skip configurations 0 and 255 explicitly. The
  code has no such test and relies on those rows of the table starting with
  `-1` (`Mesh.MeshEmptyWhenNoSampleInside`,
  `Mesh.MeshEmptyWhenEverySampleInside`).

## Model

| member | source | states |
|---|---|---|
| Generator.MarchingCubeGenerator.constructor | Assets/MarchingCubeGenerator.cs:15-18 | The generator holds the given field, isolevel and tables, and both buffers start empty, with the index buffer naming every vertex (vacuously). |
| Generator.MarchingCubeGenerator.Classify | Assets/MarchingCubeGenerator.cs:55-61 | The index lies in 0..255. Bit i is set exactly when the array element at the cell origin plus corner i's offset is strictly below the isolevel. The index equals the cell's configuration in the mesh specification. Every field read is within the array's bounds. |
| Generator.MarchingCubeGenerator.EmitRow | Assets/MarchingCubeGenerator.cs:66-83 | The loop appends the vertices of the row's entries before the sentinel, or of the first 12 entries, one per entry, placed on the edge that entry names. It appends the same number of consecutive indices, each naming its own vertex, and leaves earlier entries of both buffers unchanged. |
| Generator.MarchingCubeGenerator.ProcessCube | Assets/MarchingCubeGenerator.cs:54-83 | One cell appends exactly the vertices its configuration emits, after the existing ones. It appends as many new indices, numbered from the old vertex count, and leaves earlier entries unchanged. |
| Generator.MarchingCubeGenerator.ProcessColumn | Assets/MarchingCubeGenerator.cs:47-49 | The z loop appends the vertices of cells (x, y, 0) .. (x, y, gridSizeZ - 2) in order. Index k of the index buffer stays k. |
| Generator.MarchingCubeGenerator.ProcessSlice | Assets/MarchingCubeGenerator.cs:46-50 | The y loop appends the vertices of every column with this x, in order. Index k stays k. |
| Generator.MarchingCubeGenerator.MarchingCubes | Assets/MarchingCubeGenerator.cs:41-52 | After a pass the vertex buffer is the mesh of the field, isolevel and tables, whatever the buffers held before. The index buffer has the same length, and `triangles[k] == k` for every k (`IndicesNameVertices`), so every index names an existing vertex. |
| Generator.MarchingCubeGenerator.MarchingCubesTwice | Assets/MarchingCubeGenerator.cs:43-51 | Running the pass twice on an unchanged field leaves the same vertex and index buffers as running it once. |
| Mesh.AxisVisited | Assets/MarchingCubeGenerator.cs:45-47 | A loop `c < size - 1` from 0 visits exactly the counters below the axis's cell count, so it stops at that count. The count is 0 for an axis with fewer than two samples. |
| Mesh.IsCell | Assets/MarchingCubeGenerator.cs:45-47 | Holds of exactly the cells the three loops `c < gridSize - 1` visit: on each axis, a coordinate from 0 up to one below that axis's cell count, which is 0 for an axis with fewer than two samples. |
| Mesh.At | Assets/MarchingCubeGenerator.cs:59 | Computes `scalarField[x, y, z]` from the sampled field. |
| Mesh.CornerSample | Assets/MarchingCubeGenerator.cs:59 | Computes the sample at corner i of a cell: `scalarField[x + offset.x, y + offset.y, z + offset.z]` with `vertexOffsets[i]` as the offset. |
| Mesh.InsideUpTo | Assets/MarchingCubeGenerator.cs:58-59 | Computes, for corners 0 .. n - 1 in order, whether the corner's sample is strictly below the isolevel. |
| Mesh.Inside | Assets/MarchingCubeGenerator.cs:58-59 | Computes that test for all eight corners. |
| Mesh.Emitted | Assets/MarchingCubeGenerator.cs:54-83 | Computes the vertices one `ProcessCube(x, y, z)` call appends: those of the cell's configuration row. |
| Mesh.CellCornerInField | Assets/MarchingCubeGenerator.cs:59 | Every corner of a visited cell is a sample point of the field, so every read at line 59 is in bounds. |
| Mesh.ColumnVertices | Assets/MarchingCubeGenerator.cs:47-48 | Computes the vertices of cells (x, y, 0), (x, y, 1), ... in the z loop's order, each cell's after the previous ones. |
| Mesh.SliceVertices | Assets/MarchingCubeGenerator.cs:46-49 | Computes the vertices of the columns (x, 0), (x, 1), ... in the y loop's order. |
| Mesh.BlockVertices | Assets/MarchingCubeGenerator.cs:45-50 | Computes the vertices of the slices 0, 1, ... in the x loop's order. |
| Mesh.MeshVertices | Assets/MarchingCubeGenerator.cs:41-52 | Computes the mesh a pass builds: every visited cell's vertices, x outermost and z innermost. |
| Cells.EdgeVertex | Assets/MarchingCubeGenerator.cs:71-73 | Computes the vertex on edge e: the cell origin added to each endpoint offset, summed and divided by 2 with C#'s integer division, then converted to `Vector3`. |
| Cells.RowVertices | Assets/MarchingCubeGenerator.cs:66-79 | Computes the vertices the emission loop has appended after n turns, one per entry, and has exactly n of them. |
| Cells.CellVertices | Assets/MarchingCubeGenerator.cs:64-83 | Computes the vertices a cell with a given configuration emits: its row's entries up to the emission count. |
| Vectors.Quot | Assets/MarchingCubeGenerator.cs:73 | Computes C#'s `int / int`, which truncates toward zero. |
| Vectors.DivInt | Assets/MarchingCubeGenerator.cs:73 | Computes `Vector3Int / int`, dividing each component with `Quot`. |
| Vectors.QuotTowardZero | Assets/MarchingCubeGenerator.cs:73 | `Quot` agrees with division on non-negative operands, and negating either operand negates the quotient, so it rounds toward zero. |
| Vectors.AddInt | Assets/MarchingCubeGenerator.cs:71-72 | Computes `Vector3Int + Vector3Int`, component by component. |
| Vectors.ToVec3 | Assets/MarchingCubeGenerator.cs:73 | Computes the implicit conversion of a `Vector3Int` to a `Vector3`. |
| Vectors.Add | Assets/MarchingCubeGenerator.cs:108 | Computes `Vector3 + Vector3`, component by component. |
| Vectors.Sub | Assets/MarchingCubeGenerator.cs:108 | Computes `Vector3 - Vector3`, component by component. |
| Vectors.Scale | Assets/MarchingCubeGenerator.cs:108 | Computes `float * Vector3`, each component multiplied. |
| Vectors.Div | Assets/MarchingCubeGenerator.cs:108 | Computes `Vector3 / float`, each component divided, for a non-zero divisor. |
| Vectors.Lerp | Assets/MarchingCubeGenerator.cs:108 | Computes the point a fraction t of the way from one vector to another, `a + t * (b - a)`, the shape of the source's return expression. |
| Mesh.InsideAt | Assets/MarchingCubeGenerator.cs:59 | Corner i's flag holds exactly when its sample is strictly below the isolevel. |
| Mesh.CubeIndex | Assets/MarchingCubeGenerator.cs:55-61 | A cell's configuration index lies in 0..255. |
| Mesh.CubeIndexBits | Assets/MarchingCubeGenerator.cs:58-61 | Bit i of a cell's configuration is set exactly when corner i's sample is strictly below the isolevel. |
| Classification.Pow2 | Assets/MarchingCubeGenerator.cs:60 | Computes `1 << i` as 2 to the power i, at least 1. With i below 8 no shift overflows an `int`. |
| Classification.BitOr | Assets/MarchingCubeGenerator.cs:60 | Computes `a \| b` on non-negative integers, one binary digit at a time. |
| Classification.ConfigIndexUpTo | Assets/MarchingCubeGenerator.cs:58-61 | Computes the index after the loop has looked at corners 0 .. n - 1, as the sum of `1 << i` over the inside corners; `OrStep` shows each step equals the source's `\|=`. |
| Classification.ConfigIndex | Assets/MarchingCubeGenerator.cs:55-61 | Computes the index after all the corners. |
| Classification.OrStep | Assets/MarchingCubeGenerator.cs:60 | Or-ing `1 << n` into the index built from corners 0..n-1, when corner n is inside, gives the index of corners 0..n. |
| Classification.ConfigIndexUpToBound | Assets/MarchingCubeGenerator.cs:58-61 | After n corners the index is below `1 << n`. |
| Classification.ConfigIndexBound | Assets/MarchingCubeGenerator.cs:55-61 | Eight corners give an index below 256. |
| Classification.ConfigIndexUpToBits | Assets/MarchingCubeGenerator.cs:58-61 | After n corners, bit j is set exactly when j < n and corner j is inside. |
| Classification.ConfigIndexBits | Assets/MarchingCubeGenerator.cs:58-61 | A cell's index is below 256, and bit i is set exactly when corner i is inside. |
| Classification.NoCornerInsideIsZero | Assets/MarchingCubeGenerator.cs:55-61 | With no corner inside, the index stays 0. |
| Classification.AllCornersInsideIsFull | Assets/MarchingCubeGenerator.cs:55-61 | With every corner inside, the index after n corners is `(1 << n) - 1`: every bit set. |
| Tables.EmitCount | Assets/MarchingCubeGenerator.cs:66-69 | The loop consumes at most 12 entries. When it consumes fewer, the next entry exists and is the sentinel. |
| Tables.CountFrom | Assets/MarchingCubeGenerator.cs:66-69 | Resuming the walk at entry i consumes between i and 12 entries. It stops early only at a sentinel. |
| Tables.EmittedEntry | Assets/MarchingCubeGenerator.cs:66-72 | Every entry before the emission count is an edge index in 0..11, so the count is the first sentinel's position, capped at 12. |
| Tables.FullRowFrom | Assets/MarchingCubeGenerator.cs:66-69 | A row with edge indices up to entry 12 is consumed up to the cap. |
| Tables.FiveTriangleRowTruncated | Assets/MarchingCubeGenerator.cs:66-80 | A row with 15 edge indices before its sentinel, as a five-triangle row of the standard table has, yields 12 entries: four triangles. |
| Tables.LeadingSentinelCountsZero | Assets/MarchingCubeGenerator.cs:67-68 | A row that starts with `-1` consumes nothing. |
| Cells.EmissionStep | Assets/MarchingCubeGenerator.cs:66-69 | At turn i below 12, the entry exists, and it is `-1` exactly when i is the emission count. Before that count it is an edge index. |
| Cells.RowVerticesAt | Assets/MarchingCubeGenerator.cs:71-79 | The k-th vertex appended by the emission loop is the one on the edge named by entry k. |
| Cells.CellVerticesSpec | Assets/MarchingCubeGenerator.cs:66-80 | A cell emits exactly as many vertices as its row has entries before the sentinel, capped at 12. Vertex k lies on the edge that entry k names. |
| Cells.EdgeVertexIsLowerCorner | Assets/MarchingCubeGenerator.cs:71-73 | With the integer division, the vertex on an edge of a cell with non-negative origin is the edge's lower endpoint, not its midpoint. It lies in the cell's box. |
| Cells.CellVerticesInCellBox | Assets/MarchingCubeGenerator.cs:71-73 | Every vertex a cell emits lies in the box [x, x+1] x [y, y+1] x [z, z+1]. |
| Cells.LeadingSentinelEmitsNothing | Assets/MarchingCubeGenerator.cs:67-68 | A cell whose row starts with `-1` appends nothing. |
| Cells.Indices | Assets/MarchingCubeGenerator.cs:79-80 | Computes the indices appended one per vertex, each `vertices.Count - 1` after its vertex: start, start + 1, ..., start + n - 1. |
| Cells.IndicesSpec | Assets/MarchingCubeGenerator.cs:79-80 | A run of n appended indices starting at `start` has entry k equal to `start + k`. |
| Cells.IndicesAppend | Assets/MarchingCubeGenerator.cs:79-80 | Indices appended by two consecutive cells form one run from 0. |
| Mesh.ColumnInGridBox | Assets/MarchingCubeGenerator.cs:47-73 | Every vertex of a column of cells lies within the box spanned by the field's sample points. |
| Mesh.SliceInGridBox | Assets/MarchingCubeGenerator.cs:46-73 | Every vertex of the cells with one x lies within the field's box. |
| Mesh.BlockInGridBox | Assets/MarchingCubeGenerator.cs:45-73 | Every vertex of the cells with x below a bound lies within the field's box. |
| Mesh.MeshVerticesInGridBox | Assets/MarchingCubeGenerator.cs:45-73 | Every vertex of the mesh lies within the box spanned by the field's sample points. |
| Mesh.CellOutsideIsZero | Assets/MarchingCubeGenerator.cs:58-61 | In a field with no sample below the isolevel, every visited cell has configuration 0. |
| Mesh.CellsEmptyWhenOutside | Assets/MarchingCubeGenerator.cs:58-68 | In such a field, when row 0 starts with `-1`, no visited cell appends anything. |
| Mesh.CellInsideIsFull | Assets/MarchingCubeGenerator.cs:58-61 | In a field with every sample strictly below the isolevel, every visited cell has configuration 255. |
| Mesh.CellsEmptyWhenInside | Assets/MarchingCubeGenerator.cs:58-68 | In such a field, when row 255 starts with `-1`, no visited cell appends anything. |
| Mesh.ColumnEmpty | Assets/MarchingCubeGenerator.cs:47-49 | When no visited cell appends anything, neither does a column of cells. |
| Mesh.SliceEmpty | Assets/MarchingCubeGenerator.cs:46-50 | When no visited cell appends anything, neither do the cells with one x. |
| Mesh.BlockEmpty | Assets/MarchingCubeGenerator.cs:45-51 | When no visited cell appends anything, neither do the cells with x below a bound. |
| Mesh.MeshEmptyWhenNoSampleInside | Assets/MarchingCubeGenerator.cs:41-68 | A field with every sample at or above the isolevel yields an empty mesh whenever row 0 of the triangle table starts with `-1`. |
| Mesh.MeshEmptyWhenEverySampleInside | Assets/MarchingCubeGenerator.cs:41-68 | A field with every sample strictly below the isolevel yields an empty mesh whenever row 255 of the triangle table starts with `-1`. |
| Interpolation.AbsReal | Assets/MarchingCubeGenerator.cs:97-105 | Computes `Mathf.Abs` over reals. |
| Interpolation.CalculateVertexPosition | Assets/MarchingCubeGenerator.cs:96-109 | Computes `CulculateVertexPosition` over reals: `vertex1` when `value1` is within 0.0001 of the isolevel, else `vertex2` when `value2` is, else `vertex1` when the samples are within 0.0001 of each other, else `vertex1 + (isolevel - value1) * (vertex2 - vertex1) / (value2 - value1)`. |
| Interpolation.CrossingPoint | Assets/MarchingCubeGenerator.cs:105-108 | When neither sample is near the isolevel and the samples are not near each other, the divisor's magnitude is at least 0.0001. The result is the point a fraction t along the edge, and t is exactly where the linear interpolation of the two samples reaches the isolevel. |
| Interpolation.FractionInUnitInterval | Assets/MarchingCubeGenerator.cs:108 | When the isolevel lies between two different samples, the interpolation fraction lies in [0, 1]. |
| Interpolation.VertexOnEdge | Assets/MarchingCubeGenerator.cs:96-108 | Whenever the isolevel lies between the two samples, every branch returns a point on the segment from `vertex1` to `vertex2`. |
| Interpolation.CrossingSymmetric | Assets/MarchingCubeGenerator.cs:97-108 | Swapping the two endpoints with their samples gives the same point, except in the two cases `OrderMatters` names: both samples within 0.0001 of the isolevel, or neither within it and the samples within 0.0001 of each other. When exactly one sample is near the isolevel, both orders return its endpoint. |
| Interpolation.SampleOnSurface | Assets/MarchingCubeGenerator.cs:97-103 | A first sample exactly at the isolevel returns `vertex1`. A second sample exactly at the isolevel returns `vertex2` when the first is not within 0.0001 of the isolevel. |

## Left out

- `Start` (lines 22-39) fills the field from the distance to a sphere using
  `Vector3.Distance`, a floating-point square root. The model takes the field
  as an arbitrary array of reals given to the constructor. The constructor
  stands for the state after `Start` has allocated and filled it.
- `SetMesh` (lines 110-119) copies the buffers into a Unity `Mesh` and calls
  `RecalculateNormals`. These are engine calls, not modelled.
- `OnDrawGizmos` (lines 122-135) is editor debug drawing, not modelled.
- The inspector fields `noiseScale`, `radius`, `visualizing`, `meshFilter`
  and `sphereCenter`, and the `MonoBehaviour` lifecycle, are engine plumbing
  and not modelled.
- The contents of `MarchingCubesTables` are not part of this model. The
  tables are a parameter, and `CaseTables.Valid` states what the pass needs:
  - eight corner offsets and twelve edges, with components in {0, 1};
  - 256 rows;
  - in each row, every entry the emission loop reads exists;
  - every entry before the first `-1` (within the first 12) is in 0..11.

  A row outside this shape makes the source throw an
  `IndexOutOfRangeException`, which is not modelled.
- Floats are modelled as reals. The `<` in classification and the
  interpolation arithmetic are exact, and no rounding is modelled.
- C#'s 32-bit `int` is modelled as an unbounded integer. The index stays
  below 256 and vertex counts are list sizes, so wrap-around is not
  modelled, including for grid coordinates near 2^31.
- Generator.MarchingCubeGenerator.MarchingCubesTwice: the `isolevel` is a
  `const` in the model because no modelled operation assigns it. In the
  source it is a public field other code may change between passes; the
  idempotence holds only while it and the field are unchanged.
- The source's loops are inlined in two methods. The model gives each loop
  its own method with the same body:
  - the classification loop becomes `Classify`;
  - the emission loop becomes `EmitRow`;
  - the y and z loops of `MarchingCubes` become `ProcessSlice` and
    `ProcessColumn`.
- Cells.EdgeVertex: the model reads `(edgeStart + edgeEnd) / 2` with
  Unity's `Vector3Int / int` operator, which divides each component as an
  integer. Line 73 compiles only through that operator: C# has no `/`
  between a `Vector3Int` and an `int` otherwise, and the conversion to
  `Vector3` applies only to the quotient. So the integer reading is the
  only reading of the line. As a side remark, `Cells.CellVerticesInCellBox`
  and `Mesh.MeshVerticesInGridBox` would also hold of a midpoint.
- Interpolation.CrossingSymmetric: symmetry is not stated in the two cases
  `OrderMatters` names, because there the result depends on the order:
  when both samples are within 0.0001 of the isolevel, the first endpoint
  is returned; when neither is and the samples are within 0.0001 of each
  other, the flat-edge branch returns the first endpoint.
- `CulculateVertexPosition` reads the generator's `isolevel` field; here the
  isolevel is a parameter. The pass does not call the function, so the
  model keeps it apart from the generator.
