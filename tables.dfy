/**
 * The lookup tables of `MarchingCubesTables`. Their contents are not part
 * of this model: the generator takes them as a value and relies only on the
 * shape stated by `Valid`.
 */
module Tables {
  import opened Vectors

  /** Marks the end of a triangle-table row. */
  const Sentinel: int := -1
  /** Corners of a cube. */
  const CornerCount: nat := 8
  /** Edges of a cube. */
  const EdgeCount: nat := 12
  /** Corner configurations, one per 8-bit cube index. */
  const ConfigCount: nat := 256
  /** The emission loop in `ProcessCube` reads at most this many row entries. */
  const MaxEntries: nat := 12

  /**
   * `vertexOffsets[i]` is corner i's offset from the cell origin,
   * `edges[e]` the pair of corner offsets that edge e joins (the source's
   * `Edges[e, 0]` and `Edges[e, 1]`), and `triTable[c]` the edge indices
   * that configuration c triangulates, ended by `Sentinel`.
   */
  datatype CaseTables = CaseTables(
    vertexOffsets: seq<Vec3i>,
    triTable: seq<seq<int>>,
    edges: seq<(Vec3i, Vec3i)>)
  {
    ghost predicate Valid()
    {
      && |vertexOffsets| == CornerCount
      && (forall i | 0 <= i < |vertexOffsets| :: IsUnitOffset(vertexOffsets[i]))
      && |edges| == EdgeCount
      && (forall e | 0 <= e < |edges| :: IsUnitOffset(edges[e].0) && IsUnitOffset(edges[e].1))
      && |triTable| == ConfigCount
      && (forall c | 0 <= c < |triTable| :: WalkOk(triTable[c], 0))
    }
  }

  /** An offset to one of the corners of the unit cube. */
  predicate IsUnitOffset(v: Vec3i)
  {
    0 <= v.x <= 1 && 0 <= v.y <= 1 && 0 <= v.z <= 1
  }

  /**
   * The emission loop can walk `row` from entry `i` on: every entry it reads
   * before the sentinel or the `MaxEntries` bound exists and is an edge index.
   */
  predicate WalkOk(row: seq<int>, i: nat)
    decreases |row| - i
  {
    i >= MaxEntries
    || (i < |row| && (row[i] == Sentinel || (0 <= row[i] < EdgeCount && WalkOk(row, i + 1))))
  }

  /**
   * How many entries of `row` the emission loop consumes: the position of
   * the first sentinel, but never more than `MaxEntries`.
   */
  function EmitCount(row: seq<int>): (n: nat)
    requires WalkOk(row, 0)
    ensures n <= MaxEntries && n <= |row|
    ensures n < MaxEntries ==> n < |row| && row[n] == Sentinel
  {
    CountFrom(row, 0)
  }

  /** `EmitCount`, for a loop that has already passed `i` edge indices. */
  function CountFrom(row: seq<int>, i: nat): (n: nat)
    requires i <= MaxEntries && i <= |row| && WalkOk(row, i)
    ensures i <= n <= MaxEntries && n <= |row|
    ensures n < MaxEntries ==> n < |row| && row[n] == Sentinel
    decreases |row| - i
  {
    if i == MaxEntries || row[i] == Sentinel then i else CountFrom(row, i + 1)
  }

  /** Every entry the loop consumes from i on is an edge index. */
  lemma {:induction false} CountFromEntry(row: seq<int>, i: nat, k: int)
    requires i <= MaxEntries && i <= |row| && WalkOk(row, i)
    requires i <= k < CountFrom(row, i)
    ensures 0 <= row[k] < EdgeCount
    decreases |row| - i
  {
    if k > i {
      CountFromEntry(row, i + 1, k);
    }
  }

  /** Every entry before the emission count is an edge index, so no sentinel comes earlier. */
  lemma EmittedEntry(row: seq<int>, k: int)
    requires WalkOk(row, 0) && 0 <= k < EmitCount(row)
    ensures 0 <= row[k] < EdgeCount
  {
    CountFromEntry(row, 0, k);
  }

  /** A row with edge indices from i up to the bound is walked to the bound. */
  lemma {:induction false} FullRowFrom(row: seq<int>, i: nat)
    requires i <= MaxEntries <= |row|
    requires forall k | i <= k < MaxEntries :: 0 <= row[k] < EdgeCount
    ensures WalkOk(row, i) && CountFrom(row, i) == MaxEntries
    decreases MaxEntries - i
  {
    if i < MaxEntries {
      FullRowFrom(row, i + 1);
    }
  }

  /**
   * A row whose first 15 entries are edge indices, as a five-triangle row of
   * the canonical 16-entry table is, yields 12 entries: four triangles.
   */
  lemma FiveTriangleRowTruncated(row: seq<int>)
    requires |row| >= 15
    requires forall k | 0 <= k < 15 :: 0 <= row[k] < EdgeCount
    ensures WalkOk(row, 0) && EmitCount(row) == 12 && EmitCount(row) / 3 == 4
  {
    FullRowFrom(row, 0);
  }

  /** A row that triangulates nothing. */
  predicate StartsWithSentinel(row: seq<int>)
  {
    |row| > 0 && row[0] == Sentinel
  }

  /** A row that starts with the sentinel is walked and consumes nothing. */
  lemma LeadingSentinelCountsZero(row: seq<int>)
    requires StartsWithSentinel(row)
    ensures WalkOk(row, 0) && EmitCount(row) == 0
  {
  }
}
