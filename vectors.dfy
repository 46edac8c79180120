/**
 * The two vector types the generator works with: Unity's `Vector3Int`
 * (integer grid positions and corner/edge offsets) and `Vector3` (mesh
 * vertex positions, whose float components are modelled as reals).
 */
module Vectors {

  /** A `Vector3Int`: a grid position or an offset inside a cell. */
  datatype Vec3i = Vec3i(x: int, y: int, z: int)

  /** A `Vector3`, with `real` components in place of `float`. */
  datatype Vec3 = Vec3(x: real, y: real, z: real)

  /** `Vector3Int + Vector3Int`. */
  function AddInt(a: Vec3i, b: Vec3i): Vec3i
  {
    Vec3i(a.x + b.x, a.y + b.y, a.z + b.z)
  }

  function Abs(n: int): nat
  {
    if n < 0 then -n else n
  }

  /** C#'s `int / int`, which truncates toward zero. */
  function Quot(n: int, d: int): int
    requires d != 0
  {
    var q := Abs(n) / Abs(d);
    if (n < 0) == (d < 0) then q else -q
  }

  /**
   * `Quot` rounds toward zero: it agrees with division on non-negative
   * operands, and negating either operand negates the quotient (so
   * `Quot(-1, 2) == 0`, where Euclidean division gives -1).
   */
  lemma QuotTowardZero(n: int, d: int)
    requires d != 0
    ensures n >= 0 && d > 0 ==> Quot(n, d) == n / d
    ensures Quot(-n, d) == -Quot(n, d) && Quot(n, -d) == -Quot(n, d)
  {
    var q := Abs(n) / Abs(d);
    assert Abs(-n) == Abs(n) && Abs(-d) == Abs(d);
    if n == 0 {
      assert q == 0;
    }
  }

  /** `Vector3Int / int`: each component divided with C#'s integer division. */
  function DivInt(a: Vec3i, d: int): Vec3i
    requires d != 0
  {
    Vec3i(Quot(a.x, d), Quot(a.y, d), Quot(a.z, d))
  }

  /** The implicit conversion from `Vector3Int` to `Vector3`. */
  function ToVec3(a: Vec3i): Vec3
  {
    Vec3(a.x as real, a.y as real, a.z as real)
  }

  /** `Vector3 + Vector3`. */
  function Add(a: Vec3, b: Vec3): Vec3
  {
    Vec3(a.x + b.x, a.y + b.y, a.z + b.z)
  }

  /** `Vector3 - Vector3`. */
  function Sub(a: Vec3, b: Vec3): Vec3
  {
    Vec3(a.x - b.x, a.y - b.y, a.z - b.z)
  }

  /** `float * Vector3`. */
  function Scale(s: real, a: Vec3): Vec3
  {
    Vec3(s * a.x, s * a.y, s * a.z)
  }

  /** `Vector3 / float`. */
  function Div(a: Vec3, d: real): Vec3
    requires d != 0.0
  {
    Vec3(a.x / d, a.y / d, a.z / d)
  }

  /** The point a fraction `t` of the way from `a` to `b`. */
  function Lerp(a: Vec3, b: Vec3, t: real): Vec3
  {
    Add(a, Scale(t, Sub(b, a)))
  }
}
