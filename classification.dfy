/**
 * The cube configuration index: bit i is set when corner i of the cell is
 * inside the surface (its sample lies below the isolevel). The source keeps
 * the index in an `int` and builds it with `cubeIndex |= 1 << i`; here the
 * bitwise or, the shift and "bit j of" are written out over non-negative
 * integers.
 */
module Classification {

  /** `1 << n`. */
  function Pow2(n: nat): (p: nat)
    ensures p >= 1
  {
    if n == 0 then 1 else 2 * Pow2(n - 1)
  }

  /** Bit j of a non-negative integer. */
  predicate Bit(c: nat, j: nat)
  {
    if j == 0 then c % 2 == 1 else Bit(c / 2, j - 1)
  }

  /** `a | b` on non-negative integers, one binary digit at a time. */
  function BitOr(a: nat, b: nat): (r: nat)
    decreases a + b
  {
    if a == 0 && b == 0 then 0
    else (if a % 2 == 1 || b % 2 == 1 then 1 else 0) + 2 * BitOr(a / 2, b / 2)
  }

  /**
   * The index after the classification loop has looked at corners
   * 0 .. n - 1: corner i contributes `1 << i` when it is inside.
   */
  function ConfigIndexUpTo(inside: seq<bool>, n: nat): nat
    requires n <= |inside|
  {
    if n == 0 then 0
    else ConfigIndexUpTo(inside, n - 1) + (if inside[n - 1] then Pow2(n - 1) else 0)
  }

  /** The index of a whole cell. */
  function ConfigIndex(inside: seq<bool>): nat
  {
    ConfigIndexUpTo(inside, |inside|)
  }

  /** After n corners the index has no bit at or above n. */
  lemma {:induction false} ConfigIndexUpToBound(inside: seq<bool>, n: nat)
    requires n <= |inside|
    ensures ConfigIndexUpTo(inside, n) < Pow2(n)
  {
    if n > 0 {
      ConfigIndexUpToBound(inside, n - 1);
    }
  }

  /** The index of a cell with eight corners fits the 256 configurations. */
  lemma ConfigIndexBound(inside: seq<bool>)
    requires |inside| == 8
    ensures ConfigIndex(inside) < 256
  {
    ConfigIndexUpToBound(inside, 8);
  }

  /** Or-ing in a bit above every set bit adds it. */
  lemma {:induction false} OrHighBitAdds(c: nat, i: nat)
    requires c < Pow2(i)
    ensures BitOr(c, Pow2(i)) == c + Pow2(i)
  {
    if i > 0 {
      OrHighBitAdds(c / 2, i - 1);
    }
  }

  /** A number below `1 << i` has no bit at or above i. */
  lemma {:induction false} NoHighBits(c: nat, i: nat, j: nat)
    requires c < Pow2(i) && i <= j
    ensures !Bit(c, j)
  {
    if j > 0 {
      NoHighBits(c / 2, if i == 0 then 0 else i - 1, j - 1);
    }
  }

  /** Adding `1 << i` to a number below it sets bit i and keeps the others. */
  lemma {:induction false} BitOfAddedHighBit(c: nat, i: nat, j: nat)
    requires c < Pow2(i)
    ensures Bit(c + Pow2(i), j) == (j == i || Bit(c, j))
  {
    if i == 0 {
      if j > 0 {
        NoHighBits(0, 0, j - 1);
      }
    } else if j > 0 {
      assert (c + Pow2(i)) / 2 == c / 2 + Pow2(i - 1);
      BitOfAddedHighBit(c / 2, i - 1, j - 1);
    }
  }

  /** Bit j of the partial index is corner j's flag, for j < n, and clear above. */
  lemma {:induction false} ConfigIndexUpToBits(inside: seq<bool>, n: nat)
    requires n <= |inside|
    ensures forall j: nat :: Bit(ConfigIndexUpTo(inside, n), j) == (j < n && inside[j])
  {
    if n > 0 {
      var c := ConfigIndexUpTo(inside, n - 1);
      ConfigIndexUpToBits(inside, n - 1);
      ConfigIndexUpToBound(inside, n - 1);
      if inside[n - 1] {
        forall j: nat
          ensures Bit(ConfigIndexUpTo(inside, n), j) == (j < n && inside[j])
        {
          BitOfAddedHighBit(c, n - 1, j);
        }
      }
    } else {
      forall j: nat
        ensures !Bit(0, j)
      {
        NoHighBits(0, 0, j);
      }
    }
  }

  /**
   * One turn of the classification loop: or-ing `1 << n` into the partial
   * index when corner n is inside extends it by corner n.
   */
  lemma OrStep(inside: seq<bool>, n: nat)
    requires n < |inside|
    ensures ConfigIndexUpTo(inside, n + 1)
      == if inside[n] then BitOr(ConfigIndexUpTo(inside, n), Pow2(n)) else ConfigIndexUpTo(inside, n)
  {
    if inside[n] {
      ConfigIndexUpToBound(inside, n);
      OrHighBitAdds(ConfigIndexUpTo(inside, n), n);
    }
  }

  /** A cell's index is in 0..255 and its bit i is set exactly when corner i is inside. */
  lemma ConfigIndexBits(inside: seq<bool>)
    requires |inside| == 8
    ensures ConfigIndex(inside) < 256
    ensures forall i | 0 <= i < 8 :: Bit(ConfigIndex(inside), i) == inside[i]
  {
    ConfigIndexBound(inside);
    ConfigIndexUpToBits(inside, 8);
  }

  /** A cell with no corner inside has configuration 0. */
  lemma {:induction false} NoCornerInsideIsZero(inside: seq<bool>, n: nat)
    requires n <= |inside|
    requires forall i | 0 <= i < |inside| :: !inside[i]
    ensures ConfigIndexUpTo(inside, n) == 0
  {
    if n > 0 {
      NoCornerInsideIsZero(inside, n - 1);
    }
  }

  /** A cell with every corner inside has every bit set: 255 for eight corners. */
  lemma {:induction false} AllCornersInsideIsFull(inside: seq<bool>, n: nat)
    requires n <= |inside|
    requires forall i | 0 <= i < |inside| :: inside[i]
    ensures ConfigIndexUpTo(inside, n) == Pow2(n) - 1
  {
    if n > 0 {
      AllCornersInsideIsFull(inside, n - 1);
    }
  }
}
