/**
 * The mesh `MarchingCubes` builds, as a function of its inputs: the sampled
 * field, its size, the isolevel and the tables. Cells are visited x
 * outermost and z innermost, and each appends the vertices of its
 * configuration.
 */
module Mesh {
  import opened Vectors
  import opened Tables
  import opened Classification
  import opened Cells

  /**
   * What a pass reads: the grid size, the samples (`samples[x][y][z]`), the
   * isolevel and the tables.
   */
  datatype Grid = Grid(
    sizeX: int, sizeY: int, sizeZ: int,
    samples: seq<seq<seq<real>>>,
    isolevel: real,
    tables: CaseTables)

  /** Cells along an axis with `size` samples: the loop bound `size - 1`, or none. */
  function CellCount(size: int): nat
  {
    if size >= 1 then size - 1 else 0
  }

  /**
   * A loop `for (c = 0; c < size - 1; c++)` visits exactly the counters
   * below `CellCount(size)`, so it stops at that count.
   */
  lemma AxisVisited(size: int, c: int)
    ensures (0 <= c < CellCount(size)) <==> (0 <= c && c < size - 1)
  {
  }

  /**
   * A cell the pass visits in a field of sizeX x sizeY x sizeZ samples: one
   * the three loops `c < size - 1` reach. Its far corner (x+1, y+1, z+1) is
   * still a sample point.
   */
  predicate IsCell(sizeX: int, sizeY: int, sizeZ: int, x: int, y: int, z: int)
  {
    0 <= x < CellCount(sizeX) && 0 <= y < CellCount(sizeY) && 0 <= z < CellCount(sizeZ)
  }

  /** A sample point of the field. */
  predicate InField(g: Grid, x: int, y: int, z: int)
  {
    0 <= x < g.sizeX && 0 <= y < g.sizeY && 0 <= z < g.sizeZ
  }

  /** The sample at (x, y, z) of `samples[x][y][z]`; 0.0 where the sequences have no entry. */
  function At(samples: seq<seq<seq<real>>>, x: int, y: int, z: int): real
  {
    if 0 <= x < |samples| && 0 <= y < |samples[x]| && 0 <= z < |samples[x][y]|
    then samples[x][y][z]
    else 0.0
  }

  /** The sample at corner i of the cell at (x, y, z). */
  function CornerSample(g: Grid, x: int, y: int, z: int, i: int): real
    requires g.tables.Valid() && 0 <= i < CornerCount
  {
    var offset := g.tables.vertexOffsets[i];
    At(g.samples, x + offset.x, y + offset.y, z + offset.z)
  }

  /** Whether each of the cell's corners 0 .. n - 1 is inside the surface (strictly below the isolevel). */
  function InsideUpTo(g: Grid, x: int, y: int, z: int, n: nat): (s: seq<bool>)
    requires g.tables.Valid() && n <= CornerCount
    ensures |s| == n
  {
    if n == 0 then [] else InsideUpTo(g, x, y, z, n - 1) + [CornerSample(g, x, y, z, n - 1) < g.isolevel]
  }

  /** Entry i of the flags is corner i's test against the isolevel. */
  lemma {:induction false} InsideUpToAt(g: Grid, x: int, y: int, z: int, n: nat, i: int)
    requires g.tables.Valid() && n <= CornerCount && 0 <= i < n
    ensures InsideUpTo(g, x, y, z, n)[i] == (CornerSample(g, x, y, z, i) < g.isolevel)
  {
    if i < n - 1 {
      InsideUpToAt(g, x, y, z, n - 1, i);
    }
  }

  /** Whether each of the cell's eight corners is inside the surface. */
  function Inside(g: Grid, x: int, y: int, z: int): (s: seq<bool>)
    requires g.tables.Valid()
    ensures |s| == CornerCount
  {
    InsideUpTo(g, x, y, z, CornerCount)
  }

  /** Corner i's flag says whether its sample lies strictly below the isolevel. */
  lemma InsideAt(g: Grid, x: int, y: int, z: int)
    requires g.tables.Valid()
    ensures forall i | 0 <= i < CornerCount :: Inside(g, x, y, z)[i] == (CornerSample(g, x, y, z, i) < g.isolevel)
  {
    forall i | 0 <= i < CornerCount
      ensures Inside(g, x, y, z)[i] == (CornerSample(g, x, y, z, i) < g.isolevel)
    {
      InsideUpToAt(g, x, y, z, CornerCount, i);
    }
  }

  /** The cell's configuration index. */
  function CubeIndex(g: Grid, x: int, y: int, z: int): (c: int)
    requires g.tables.Valid()
    ensures 0 <= c < ConfigCount
  {
    ConfigIndexBound(Inside(g, x, y, z));
    ConfigIndex(Inside(g, x, y, z))
  }

  /**
   * Bit i of a cell's configuration index is set exactly when corner i's
   * sample lies strictly below the isolevel.
   */
  lemma CubeIndexBits(g: Grid, x: int, y: int, z: int)
    requires g.tables.Valid()
    ensures forall i | 0 <= i < CornerCount :: Bit(CubeIndex(g, x, y, z), i) == (CornerSample(g, x, y, z, i) < g.isolevel)
  {
    InsideAt(g, x, y, z);
    ConfigIndexBits(Inside(g, x, y, z));
  }

  /** The vertices the cell at (x, y, z) appends. */
  function Emitted(g: Grid, x: int, y: int, z: int): seq<Vec3>
    requires g.tables.Valid()
  {
    CellVertices(g.tables, x, y, z, CubeIndex(g, x, y, z))
  }

  /** The vertices of the cells (x, y, 0) .. (x, y, zn - 1), in visiting order. */
  function ColumnVertices(g: Grid, x: int, y: int, zn: nat): seq<Vec3>
    requires g.tables.Valid()
  {
    if zn == 0 then [] else ColumnVertices(g, x, y, zn - 1) + Emitted(g, x, y, zn - 1)
  }

  /** The vertices of every cell with this x and a y below yn, in visiting order. */
  function SliceVertices(g: Grid, x: int, yn: nat): seq<Vec3>
    requires g.tables.Valid()
  {
    if yn == 0 then [] else SliceVertices(g, x, yn - 1) + ColumnVertices(g, x, yn - 1, CellCount(g.sizeZ))
  }

  /** The vertices of every cell with an x below xn, in visiting order. */
  function BlockVertices(g: Grid, xn: nat): seq<Vec3>
    requires g.tables.Valid()
  {
    if xn == 0 then [] else BlockVertices(g, xn - 1) + SliceVertices(g, xn - 1, CellCount(g.sizeY))
  }

  /** The whole mesh: every cell's vertices, x outermost and z innermost. */
  function MeshVertices(g: Grid): seq<Vec3>
    requires g.tables.Valid()
  {
    BlockVertices(g, CellCount(g.sizeX))
  }

  /** A point of the box spanned by the field's sample points. */
  predicate InGridBox(v: Vec3, g: Grid)
  {
    && 0.0 <= v.x <= (g.sizeX - 1) as real
    && 0.0 <= v.y <= (g.sizeY - 1) as real
    && 0.0 <= v.z <= (g.sizeZ - 1) as real
  }

  /** Every vertex of the column of cells (x, y, 0) .. (x, y, zn - 1) lies in the field's box. */
  lemma {:induction false} ColumnInGridBox(g: Grid, x: int, y: int, zn: nat)
    requires g.tables.Valid() && 0 <= x < CellCount(g.sizeX) && 0 <= y < CellCount(g.sizeY) && zn <= CellCount(g.sizeZ)
    ensures forall v | v in ColumnVertices(g, x, y, zn) :: InGridBox(v, g)
  {
    if zn > 0 {
      ColumnInGridBox(g, x, y, zn - 1);
      var z := zn - 1;
      CellVerticesInCellBox(g.tables, x, y, z, CubeIndex(g, x, y, z));
      forall v | v in Emitted(g, x, y, z)
        ensures InGridBox(v, g)
      {
        var k :| 0 <= k < |Emitted(g, x, y, z)| && Emitted(g, x, y, z)[k] == v;
      }
    }
  }

  /** Every vertex of the cells with this x and a y below yn lies in the field's box. */
  lemma {:induction false} SliceInGridBox(g: Grid, x: int, yn: nat)
    requires g.tables.Valid() && 0 <= x < CellCount(g.sizeX) && yn <= CellCount(g.sizeY)
    ensures forall v | v in SliceVertices(g, x, yn) :: InGridBox(v, g)
  {
    if yn > 0 {
      SliceInGridBox(g, x, yn - 1);
      ColumnInGridBox(g, x, yn - 1, CellCount(g.sizeZ));
    }
  }

  /** Every vertex of the cells with an x below xn lies in the field's box. */
  lemma {:induction false} BlockInGridBox(g: Grid, xn: nat)
    requires g.tables.Valid() && xn <= CellCount(g.sizeX)
    ensures forall v | v in BlockVertices(g, xn) :: InGridBox(v, g)
  {
    if xn > 0 {
      BlockInGridBox(g, xn - 1);
      SliceInGridBox(g, xn - 1, CellCount(g.sizeY));
    }
  }

  /**
   * Every vertex of the mesh lies within the box spanned by the field's
   * sample points: the pass never places a vertex outside the grid.
   */
  lemma MeshVerticesInGridBox(g: Grid)
    requires g.tables.Valid()
    ensures forall v | v in MeshVertices(g) :: InGridBox(v, g)
  {
    BlockInGridBox(g, CellCount(g.sizeX));
  }

  /** No sample of the field lies strictly below the isolevel. */
  ghost predicate NoSampleInside(g: Grid)
  {
    forall x, y, z | InField(g, x, y, z) :: At(g.samples, x, y, z) >= g.isolevel
  }

  /** A visited cell of a field with no sample below the isolevel has configuration 0. */
  lemma CellOutsideIsZero(g: Grid, x: int, y: int, z: int)
    requires g.tables.Valid() && NoSampleInside(g) && IsCell(g.sizeX, g.sizeY, g.sizeZ, x, y, z)
    ensures CubeIndex(g, x, y, z) == 0
  {
    InsideAt(g, x, y, z);
    forall i | 0 <= i < CornerCount
      ensures !Inside(g, x, y, z)[i]
    {
      CellCornerInField(g, x, y, z, i);
    }
    NoCornerInsideIsZero(Inside(g, x, y, z), CornerCount);
  }

  /** Every corner of a visited cell is a sample point, so every read of the field is in bounds. */
  lemma CellCornerInField(g: Grid, x: int, y: int, z: int, i: int)
    requires g.tables.Valid() && IsCell(g.sizeX, g.sizeY, g.sizeZ, x, y, z) && 0 <= i < CornerCount
    ensures var offset := g.tables.vertexOffsets[i];
      InField(g, x + offset.x, y + offset.y, z + offset.z)
  {
  }

  /** Every sample of the field lies strictly below the isolevel. */
  ghost predicate EverySampleInside(g: Grid)
  {
    forall x, y, z | InField(g, x, y, z) :: At(g.samples, x, y, z) < g.isolevel
  }

  /** A visited cell of a field with every sample below the isolevel has configuration 255. */
  lemma CellInsideIsFull(g: Grid, x: int, y: int, z: int)
    requires g.tables.Valid() && EverySampleInside(g) && IsCell(g.sizeX, g.sizeY, g.sizeZ, x, y, z)
    ensures CubeIndex(g, x, y, z) == ConfigCount - 1
  {
    InsideAt(g, x, y, z);
    forall i | 0 <= i < CornerCount
      ensures Inside(g, x, y, z)[i]
    {
      CellCornerInField(g, x, y, z, i);
    }
    AllCornersInsideIsFull(Inside(g, x, y, z), CornerCount);
    assert Pow2(8) == 256;
  }

  /** Every cell the pass visits emits nothing. */
  ghost predicate EveryCellEmpty(g: Grid)
    requires g.tables.Valid()
  {
    forall x, y, z | IsCell(g.sizeX, g.sizeY, g.sizeZ, x, y, z) :: |Emitted(g, x, y, z)| == 0
  }

  /** With no sample inside and an empty row 0, no visited cell emits anything. */
  lemma CellsEmptyWhenOutside(g: Grid)
    requires g.tables.Valid() && NoSampleInside(g) && StartsWithSentinel(g.tables.triTable[0])
    ensures EveryCellEmpty(g)
  {
    forall x, y, z | IsCell(g.sizeX, g.sizeY, g.sizeZ, x, y, z)
      ensures |Emitted(g, x, y, z)| == 0
    {
      CellOutsideIsZero(g, x, y, z);
      LeadingSentinelEmitsNothing(g.tables, x, y, z, 0);
    }
  }

  /** With every sample inside and an empty row 255, no visited cell emits anything. */
  lemma CellsEmptyWhenInside(g: Grid)
    requires g.tables.Valid() && EverySampleInside(g) && StartsWithSentinel(g.tables.triTable[ConfigCount - 1])
    ensures EveryCellEmpty(g)
  {
    forall x, y, z | IsCell(g.sizeX, g.sizeY, g.sizeZ, x, y, z)
      ensures |Emitted(g, x, y, z)| == 0
    {
      CellInsideIsFull(g, x, y, z);
      LeadingSentinelEmitsNothing(g.tables, x, y, z, ConfigCount - 1);
    }
  }

  /** When no visited cell emits anything, neither does a column of them. */
  lemma {:induction false} ColumnEmpty(g: Grid, x: int, y: int, zn: nat)
    requires g.tables.Valid() && EveryCellEmpty(g)
    requires 0 <= x < CellCount(g.sizeX) && 0 <= y < CellCount(g.sizeY) && zn <= CellCount(g.sizeZ)
    ensures ColumnVertices(g, x, y, zn) == []
  {
    if zn > 0 {
      ColumnEmpty(g, x, y, zn - 1);
    }
  }

  /** When no visited cell emits anything, neither do the cells with this x and a y below yn. */
  lemma {:induction false} SliceEmpty(g: Grid, x: int, yn: nat)
    requires g.tables.Valid() && EveryCellEmpty(g)
    requires 0 <= x < CellCount(g.sizeX) && yn <= CellCount(g.sizeY)
    ensures SliceVertices(g, x, yn) == []
  {
    if yn > 0 {
      SliceEmpty(g, x, yn - 1);
      ColumnEmpty(g, x, yn - 1, CellCount(g.sizeZ));
    }
  }

  /** When no visited cell emits anything, neither do the cells with an x below xn. */
  lemma {:induction false} BlockEmpty(g: Grid, xn: nat)
    requires g.tables.Valid() && EveryCellEmpty(g)
    requires xn <= CellCount(g.sizeX)
    ensures BlockVertices(g, xn) == []
  {
    if xn > 0 {
      BlockEmpty(g, xn - 1);
      SliceEmpty(g, xn - 1, CellCount(g.sizeY));
    }
  }

  /**
   * A field with every sample at or above the isolevel classifies every cell
   * as configuration 0; when row 0 of the triangle table starts with the
   * sentinel, the mesh is empty.
   */
  lemma MeshEmptyWhenNoSampleInside(g: Grid)
    requires g.tables.Valid() && NoSampleInside(g) && StartsWithSentinel(g.tables.triTable[0])
    ensures MeshVertices(g) == []
  {
    CellsEmptyWhenOutside(g);
    BlockEmpty(g, CellCount(g.sizeX));
  }

  /**
   * A field with every sample strictly below the isolevel classifies every
   * cell as configuration 255; when row 255 of the triangle table starts
   * with the sentinel, the mesh is empty.
   */
  lemma MeshEmptyWhenEverySampleInside(g: Grid)
    requires g.tables.Valid() && EverySampleInside(g) && StartsWithSentinel(g.tables.triTable[ConfigCount - 1])
    ensures MeshVertices(g) == []
  {
    CellsEmptyWhenInside(g);
    BlockEmpty(g, CellCount(g.sizeX));
  }
}
