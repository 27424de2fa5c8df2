/** Shared vocabulary for the raster computations: 2D grids stored row by row,
    integer helpers and a result type for the errors numpy and Python raise. */
module Raster {

  /** A value or the error that stops the computation. */
  datatype Result<T, E> = Ok(value: T) | Err(error: E)

  /** Number of columns of a grid stored row by row (0 for a grid with no rows). */
  function Width<T>(g: seq<seq<T>>): nat
  {
    if |g| == 0 then 0 else |g[0]|
  }

  /** Every row has the same length, as in a 2D numpy array. */
  predicate IsRect<T>(g: seq<seq<T>>)
  {
    forall r :: 0 <= r < |g| ==> |g[r]| == Width(g)
  }

  /** g has exactly h rows of w cells each. */
  predicate Shape<T>(g: seq<seq<T>>, h: nat, w: nat)
  {
    |g| == h && forall r :: 0 <= r < h ==> |g[r]| == w
  }

  /** Two grids of the same shape with the same cells are equal. */
  lemma GridExt<T>(a: seq<seq<T>>, b: seq<seq<T>>, h: nat, w: nat)
    requires Shape(a, h, w) && Shape(b, h, w)
    requires forall r, c :: 0 <= r < h && 0 <= c < w ==> a[r][c] == b[r][c]
    ensures a == b
  {
    forall r | 0 <= r < h
      ensures a[r] == b[r]
    {
      assert forall c :: 0 <= c < w ==> a[r][c] == b[r][c];
    }
  }

  /** The number of iterations of `range(n)`: none for n <= 0. */
  function Rounds(n: int): nat
  {
    if n <= 0 then 0 else n
  }

  function Min(a: int, b: int): int
  {
    if a <= b then a else b
  }

  /** ceil(a / s) for a non-negative length a and a positive step s. */
  function CeilDiv(a: nat, s: nat): nat
    requires s >= 1
  {
    (a + s - 1) / s
  }

  /** Number of origins 0, s, 2s, ... that lie below len: the iterations of
      `range(0, len, s)`. */
  function Origins(len: int, s: nat): (n: nat)
    requires s >= 1
    decreases len
  {
    if len <= 0 then 0 else 1 + Origins(len - s, s)
  }

  lemma MulAtLeast(d: int, s: int)
    requires s >= 1
    ensures d >= 1 ==> d * s >= s
    ensures d <= -1 ==> d * s <= -s
  {
    if d >= 1 {
      assert d * s == (d - 1) * s + s;
    } else if d <= -1 {
      assert d * s == (d + 1) * s - s;
    }
  }

  /** Euclidean division is unique: a quotient and remainder pair determines x / s. */
  lemma DivUnique(x: int, s: int, q: int, r: int)
    requires s >= 1 && 0 <= r < s && x == q * s + r
    ensures x / s == q
  {
    var q', r' := x / s, x % s;
    assert x == q' * s + r' && 0 <= r' < s;
    assert (q - q') * s == r' - r;
    MulAtLeast(q - q', s);
  }

  lemma DivShift(x: nat, s: nat)
    requires s >= 1
    ensures (x + s) / s == x / s + 1
    ensures x < s ==> x / s == 0
  {
    var q, r := x / s, x % s;
    assert x == q * s + r && 0 <= r < s;
    DivUnique(x + s, s, q + 1, r);
    if x < s {
      DivUnique(x, s, 0, x);
    }
  }

  /** The loop `range(0, len, s)` runs ceil(len / s) times. */
  lemma {:induction false} OriginsIsCeil(len: nat, s: nat)
    requires s >= 1
    ensures Origins(len, s) == CeilDiv(len, s)
    decreases len
  {
    if len == 0 {
      DivShift(s - 1, s);
    } else if len <= s {
      DivShift(len - 1, s);
    } else {
      OriginsIsCeil(len - s, s);
      DivShift(len - 1, s);
      assert len - s + s - 1 == len - 1;
      DivShift(len - 1 - s, s);
    }
  }
}
