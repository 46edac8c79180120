/**
 * What one cell contributes to the mesh, as a function of the tables, the
 * cell origin and its configuration index: the vertices `ProcessCube`
 * appends and the indices that refer to them.
 */
module Cells {
  import opened Vectors
  import opened Tables

  /**
   * The vertex placed on edge `e` of the cell at (x, y, z): the edge's
   * endpoints (x, y, z) + a and (x, y, z) + b are added as `Vector3Int`s and
   * divided by the `int` 2, so each component is divided with C#'s integer
   * division before the conversion to `Vector3`.
   */
  function EdgeVertex(t: CaseTables, x: int, y: int, z: int, e: int): Vec3
    requires t.Valid() && 0 <= e < EdgeCount
  {
    var origin := Vec3i(x, y, z);
    var (a, b) := t.edges[e];
    ToVec3(DivInt(AddInt(AddInt(origin, a), AddInt(origin, b)), 2))
  }

  /**
   * The vertices for entries 0 .. n - 1 of `row`, each placed on the edge
   * its entry names: what the emission loop has appended after n turns.
   */
  function RowVertices(t: CaseTables, x: int, y: int, z: int, row: seq<int>, n: nat): (s: seq<Vec3>)
    requires t.Valid() && WalkOk(row, 0) && n <= EmitCount(row)
    ensures |s| == n
  {
    if n == 0 then []
    else
      EmittedEntry(row, n - 1);
      RowVertices(t, x, y, z, row, n - 1) + [EdgeVertex(t, x, y, z, row[n - 1])]
  }

  /** Vertex k of the first n is the one on the edge that entry k names. */
  lemma {:induction false} RowVerticesAt(t: CaseTables, x: int, y: int, z: int, row: seq<int>, n: nat, k: int)
    requires t.Valid() && WalkOk(row, 0) && n <= EmitCount(row) && 0 <= k < n
    ensures 0 <= row[k] < EdgeCount
    ensures RowVertices(t, x, y, z, row, n)[k] == EdgeVertex(t, x, y, z, row[k])
  {
    EmittedEntry(row, k);
    if k < n - 1 {
      RowVerticesAt(t, x, y, z, row, n - 1, k);
    }
  }

  /**
   * The vertices the cell at (x, y, z) emits when its configuration is
   * `cubeIndex`: one per entry of its row before the sentinel (at most
   * `MaxEntries`).
   */
  function CellVertices(t: CaseTables, x: int, y: int, z: int, cubeIndex: int): seq<Vec3>
    requires t.Valid() && 0 <= cubeIndex < ConfigCount
  {
    var row := t.triTable[cubeIndex];
    RowVertices(t, x, y, z, row, EmitCount(row))
  }

  /**
   * A cell emits exactly as many vertices as its row has entries before the
   * sentinel, and vertex k is the one on the edge that entry k names.
   */
  lemma CellVerticesSpec(t: CaseTables, x: int, y: int, z: int, cubeIndex: int)
    requires t.Valid() && 0 <= cubeIndex < ConfigCount
    ensures |CellVertices(t, x, y, z, cubeIndex)| == EmitCount(t.triTable[cubeIndex])
    ensures forall k | 0 <= k < |CellVertices(t, x, y, z, cubeIndex)| ::
      && 0 <= t.triTable[cubeIndex][k] < EdgeCount
      && CellVertices(t, x, y, z, cubeIndex)[k] == EdgeVertex(t, x, y, z, t.triTable[cubeIndex][k])
  {
    var row := t.triTable[cubeIndex];
    forall k | 0 <= k < |CellVertices(t, x, y, z, cubeIndex)|
      ensures 0 <= row[k] < EdgeCount && CellVertices(t, x, y, z, cubeIndex)[k] == EdgeVertex(t, x, y, z, row[k])
    {
      RowVerticesAt(t, x, y, z, row, EmitCount(row), k);
    }
  }

  /**
   * One turn of the emission loop at entry i: the loop stops at entry i
   * exactly when i is the emission count; otherwise entry i is an edge index.
   */
  lemma EmissionStep(row: seq<int>, i: nat)
    requires WalkOk(row, 0) && i <= EmitCount(row)
    ensures i < MaxEntries ==> i < |row| && (row[i] == Sentinel <==> i == EmitCount(row))
    ensures i < EmitCount(row) ==> 0 <= row[i] < EdgeCount
  {
    if i < EmitCount(row) {
      EmittedEntry(row, i);
    }
  }

  /** The indices `start`, `start + 1`, ..., `start + n - 1`. */
  function Indices(start: int, n: nat): seq<int>
  {
    if n == 0 then [] else Indices(start, n - 1) + [start + n - 1]
  }

  /** A run of n indices from `start` has entry k equal to `start + k`. */
  lemma {:induction false} IndicesSpec(start: int, n: nat)
    ensures |Indices(start, n)| == n
    ensures forall k | 0 <= k < n :: Indices(start, n)[k] == start + k
  {
    if n > 0 {
      IndicesSpec(start, n - 1);
    }
  }

  /** Indices emitted in two runs join into one run. */
  lemma {:induction false} IndicesAppend(m: nat, n: nat)
    ensures Indices(0, m) + Indices(m, n) == Indices(0, m + n)
  {
    if n > 0 {
      IndicesAppend(m, n - 1);
      ConcatAssoc(Indices(0, m), Indices(m, n - 1), [m + n - 1]);
    }
  }

  lemma ConcatAssoc<T>(a: seq<T>, b: seq<T>, c: seq<T>)
    ensures a + b + c == a + (b + c)
  {
  }

  /** The box [x, x+1] x [y, y+1] x [z, z+1] of the cell with origin (x, y, z). */
  predicate InCellBox(v: Vec3, x: int, y: int, z: int)
  {
    && x as real <= v.x <= (x + 1) as real
    && y as real <= v.y <= (y + 1) as real
    && z as real <= v.z <= (z + 1) as real
  }

  function Min(a: int, b: int): int
  {
    if a <= b then a else b
  }

  /** Halving the sum of two endpoint coordinates at most one unit apart keeps the lower one. */
  lemma HalfOfEndpoints(c: int, a: int, b: int)
    requires c >= 0 && 0 <= a <= 1 && 0 <= b <= 1
    ensures Quot((c + a) + (c + b), 2) == c + Min(a, b)
  {
  }

  /**
   * Because the division truncates, an emitted vertex is not the edge's
   * midpoint but the corner where both endpoints' coordinates are smallest:
   * on a cube edge, its lower endpoint. It lies in the cell's box.
   */
  lemma EdgeVertexIsLowerCorner(t: CaseTables, x: int, y: int, z: int, e: int)
    requires t.Valid() && 0 <= e < EdgeCount && x >= 0 && y >= 0 && z >= 0
    ensures var (a, b) := t.edges[e];
      EdgeVertex(t, x, y, z, e) == ToVec3(Vec3i(x + Min(a.x, b.x), y + Min(a.y, b.y), z + Min(a.z, b.z)))
    ensures InCellBox(EdgeVertex(t, x, y, z, e), x, y, z)
  {
    var (a, b) := t.edges[e];
    assert IsUnitOffset(a) && IsUnitOffset(b);
    HalfOfEndpoints(x, a.x, b.x);
    HalfOfEndpoints(y, a.y, b.y);
    HalfOfEndpoints(z, a.z, b.z);
  }

  /** Every vertex a cell emits lies in that cell's box. */
  lemma CellVerticesInCellBox(t: CaseTables, x: int, y: int, z: int, cubeIndex: int)
    requires t.Valid() && 0 <= cubeIndex < ConfigCount && x >= 0 && y >= 0 && z >= 0
    ensures forall k | 0 <= k < |CellVertices(t, x, y, z, cubeIndex)| ::
      InCellBox(CellVertices(t, x, y, z, cubeIndex)[k], x, y, z)
  {
    var row := t.triTable[cubeIndex];
    forall k | 0 <= k < |CellVertices(t, x, y, z, cubeIndex)|
      ensures InCellBox(CellVertices(t, x, y, z, cubeIndex)[k], x, y, z)
    {
      RowVerticesAt(t, x, y, z, row, EmitCount(row), k);
      EdgeVertexIsLowerCorner(t, x, y, z, row[k]);
    }
  }

  /** A cell whose row starts with the sentinel emits nothing. */
  lemma LeadingSentinelEmitsNothing(t: CaseTables, x: int, y: int, z: int, cubeIndex: int)
    requires t.Valid() && 0 <= cubeIndex < ConfigCount
    requires StartsWithSentinel(t.triTable[cubeIndex])
    ensures CellVertices(t, x, y, z, cubeIndex) == []
  {
  }
}
