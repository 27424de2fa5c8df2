/** Local box counting over a sliding window (color-map.py). The log-log
    regression that turns a window's counts into a slope is a parameter `fit`
    (standing for `-np.polyfit(log(1/sizes), log(counts), 1)[0]`); everything
    around it, the window enumeration, the output-index mapping and the
    per-patch counting, is modelled exactly. */
module ColorMap {
  import opened Raster
  import BoxCounting

  datatype Error =
    | NegativeDimension  // np.zeros refuses a negative output shape
    | ZeroStride         // range() refuses a step of 0

  /** The fixed ladder of box_counting_fractal_dimension, whatever the window size. */
  const LocalLadder: seq<nat> := [2, 4, 8, 16]

  /** The bs x bs window of the image whose top-left pixel is (i, j), for a
      window that lies inside the image. */
  function LocalPatch(image: seq<seq<bool>>, i: nat, j: nat, bs: nat): (p: seq<seq<bool>>)
    requires IsRect(image) && i + bs <= |image| && j + bs <= Width(image)
    ensures |p| == bs && IsRect(p) && (bs > 0 ==> Width(p) == bs)
    ensures forall r, c :: 0 <= r < bs && 0 <= c < bs ==> p[r][c] == image[i + r][j + c]
  {
    seq(bs, r requires 0 <= r < bs => image[i + r][j..j + bs])
  }

  /** The four counts of one patch, aligned with LocalLadder. */
  function PatchCounts(patch: seq<seq<bool>>): (counts: seq<nat>)
    requires IsRect(patch)
    ensures |counts| == |LocalLadder| == 4
  {
    BoxCounting.Counts(patch, LocalLadder)
  }

  /** box_counting_fractal_dimension: counts the patch on each size of the
      ladder, appending one count per size, and hands the counts to the
      regression. */
  method BoxCountingFractalDimension(patch: seq<seq<bool>>, fit: seq<nat> -> real) returns (d: real)
    requires IsRect(patch)
    ensures d == fit(PatchCounts(patch))
  {
    var counts: seq<nat> := [];
    for k := 0 to |LocalLadder|
      invariant counts == BoxCounting.Counts(patch, LocalLadder[..k])
    {
      var n := BoxCounting.CountOccupied(patch, LocalLadder[k]);
      counts := counts + [n];
    }
    assert LocalLadder[..|LocalLadder|] == LocalLadder;
    d := fit(counts);
  }

  /** Row a (or column a) of the output map is written exactly when some
      window origin a * stride lies in range(0, n, stride). */
  predicate Written(a: nat, n: int, stride: int)
  {
    stride > 0 && a * stride < n
  }

  /** What fractal_dimension_local leaves in cell (a, b) of the map: the
      value of the window at origin (a * stride, b * stride) when that origin
      is enumerated, and the initial 0 otherwise. */
  function Expected(image: seq<seq<bool>>, bs: nat, stride: int, fit: seq<nat> -> real, a: nat, b: nat): real
    requires IsRect(image)
  {
    if Written(a, |image| - bs + 1, stride) && Written(b, Width(image) - bs + 1, stride) then
      assert a * stride + bs <= |image| && b * stride + bs <= Width(image);
      fit(PatchCounts(LocalPatch(image, a * stride, b * stride, bs)))
    else 0.0
  }

  /** fractal_dimension_local: a map of shape (h - bs + 1) x (w - bs + 1),
      zero-filled, of which the windows at origins 0, stride, 2 stride, ...
      write cell (i // stride, j // stride). */
  method FractalDimensionLocal(image: seq<seq<bool>>, bs: nat, stride: int, fit: seq<nat> -> real)
    returns (r: Result<array2<real>, Error>)
    requires IsRect(image) && bs >= 1
    ensures r.Err? <==> (bs > |image| + 1 || bs > Width(image) + 1 || stride == 0)
    ensures r.Err? ==> r.error == (if bs > |image| + 1 || bs > Width(image) + 1 then NegativeDimension else ZeroStride)
    ensures r.Ok? ==> fresh(r.value)
    ensures r.Ok? ==> r.value.Length0 == |image| - bs + 1 && r.value.Length1 == Width(image) - bs + 1
    ensures r.Ok? ==> forall a, b :: 0 <= a < r.value.Length0 && 0 <= b < r.value.Length1 ==>
                        r.value[a, b] == Expected(image, bs, stride, fit, a, b)
  {
    var h, w := |image|, Width(image);
    if bs > h + 1 || bs > w + 1 {
      return Err(NegativeDimension);
    }
    var fdMap := new real[h - bs + 1, w - bs + 1]((_, _) => 0.0);
    if stride == 0 {
      return Err(ZeroStride);
    }
    if stride > 0 {
      var i := 0;
      ghost var ki: nat := 0;
      while i < h - bs + 1
        invariant i == ki * stride
        invariant forall a, b :: 0 <= a < fdMap.Length0 && 0 <= b < fdMap.Length1 ==>
                    fdMap[a, b] == (if a < ki then Expected(image, bs, stride, fit, a, b) else 0.0)
        decreases h - bs + 1 - i
      {
        OriginIndex(ki, stride);
        WriteRow(image, bs, stride, fit, fdMap, i);
        i := i + stride;
        ki := ki + 1;
      }
      NotWrittenBeyond(ki, h - bs + 1, stride);
    }
    return Ok(fdMap);
  }

  /** The inner loop of fractal_dimension_local for the windows whose top row is i. */
  method WriteRow(image: seq<seq<bool>>, bs: nat, stride: int, fit: seq<nat> -> real, fdMap: array2<real>, i: nat)
    requires IsRect(image) && bs >= 1 && stride > 0 && i % stride == 0
    requires i + bs <= |image| && bs <= Width(image) + 1
    requires fdMap.Length0 == |image| - bs + 1 && fdMap.Length1 == Width(image) - bs + 1
    modifies fdMap
    ensures forall a, b :: 0 <= a < fdMap.Length0 && 0 <= b < fdMap.Length1 ==>
              fdMap[a, b] == (if a == i / stride && Written(b, Width(image) - bs + 1, stride)
                              then Expected(image, bs, stride, fit, a, b) else old(fdMap[a, b]))
  {
    var w := Width(image);
    var ki := i / stride;
    assert i == ki * stride;
    OriginIndex(ki, stride);
    WrittenUpTo(ki, |image| - bs + 1, stride);
    var j := 0;
    ghost var kj: nat := 0;
    while j < w - bs + 1
      invariant j == kj * stride
      invariant kj > 0 ==> (kj - 1) * stride < w - bs + 1
      invariant forall a, b :: 0 <= a < fdMap.Length0 && 0 <= b < fdMap.Length1 ==>
                  fdMap[a, b] == (if a == ki && b < kj then Expected(image, bs, stride, fit, a, b) else old(fdMap[a, b]))
      decreases w - bs + 1 - j
    {
      OriginIndex(kj, stride);
      WriteCell(image, bs, stride, fit, fdMap, i, j);
      j := j + stride;
      kj := kj + 1;
    }
    if kj > 0 {
      WrittenUpTo(kj - 1, w - bs + 1, stride);
    }
    NotWrittenBeyond(kj, w - bs + 1, stride);
  }

  /** The body of the window loops: count the window at origin (i, j) and
      store its value at (i // stride, j // stride). */
  method WriteCell(image: seq<seq<bool>>, bs: nat, stride: int, fit: seq<nat> -> real, fdMap: array2<real>, i: nat, j: nat)
    requires IsRect(image) && bs >= 1 && stride > 0 && i % stride == 0 && j % stride == 0
    requires i + bs <= |image| && j + bs <= Width(image)
    requires fdMap.Length0 == |image| - bs + 1 && fdMap.Length1 == Width(image) - bs + 1
    modifies fdMap
    ensures forall a, b :: 0 <= a < fdMap.Length0 && 0 <= b < fdMap.Length1 ==>
              fdMap[a, b] == (if a == i / stride && b == j / stride then Expected(image, bs, stride, fit, a, b) else old(fdMap[a, b]))
  {
    var ki, kj := i / stride, j / stride;
    assert i == ki * stride && j == kj * stride;
    OriginIndex(ki, stride);
    OriginIndex(kj, stride);
    var patch := LocalPatch(image, i, j, bs);
    var d := BoxCountingFractalDimension(patch, fit);
    assert Written(ki, |image| - bs + 1, stride) && Written(kj, Width(image) - bs + 1, stride);
    assert d == Expected(image, bs, stride, fit, ki, kj);
    fdMap[i / stride, j / stride] := d;
  }

  /** The k-th window origin k * stride is mapped back to output index k. */
  lemma OriginIndex(k: nat, stride: int)
    requires stride > 0
    ensures (k * stride) / stride == k
    ensures k <= k * stride
  {
    DivUnique(k * stride, stride, k, 0);
    MulAtLeast(k, stride);
  }

  lemma WrittenUpTo(k: nat, n: int, stride: int)
    requires stride > 0 && k * stride < n
    ensures forall a: nat :: a <= k ==> Written(a, n, stride)
  {
    forall a: nat | a <= k
      ensures Written(a, n, stride)
    {
      assert a * stride <= k * stride by {
        assert k * stride == a * stride + (k - a) * stride;
      }
    }
  }

  lemma NotWrittenBeyond(k: nat, n: int, stride: int)
    requires stride > 0 && k * stride >= n
    ensures forall a: nat :: a >= k ==> !Written(a, n, stride)
  {
    forall a: nat | a >= k
      ensures !Written(a, n, stride)
    {
      assert a * stride == k * stride + (a - k) * stride;
    }
  }

  /** a * s <= x exactly when a <= x / s. */
  lemma MulBelow(a: nat, s: nat, x: nat)
    requires s >= 1
    ensures a * s <= x <==> a <= x / s
  {
    var q, r := x / s, x % s;
    assert x == q * s + r && 0 <= r < s;
    assert a * s - q * s == (a - q) * s;
    MulAtLeast(a - q, s);
    MulAtLeast(q - a + 1, s);
    assert (q - a + 1) * s == q * s - a * s + s;
  }

  /** Only the top-left ceil(n / stride) rows (columns) of the map are written. */
  lemma WrittenBlock(a: nat, n: nat, stride: int)
    requires stride > 0
    ensures Written(a, n, stride) <==> a < CeilDiv(n, stride)
  {
    if n == 0 {
      DivShift(stride - 1, stride);
    } else {
      MulBelow(a, stride, n - 1);
      DivShift(n - 1, stride);
      assert n - 1 + stride == n + stride - 1;
    }
  }

  /** Cells outside the written block keep the 0 they were created with. */
  lemma UnwrittenCellsZero(image: seq<seq<bool>>, bs: nat, stride: int, fit: seq<nat> -> real, a: nat, b: nat)
    requires IsRect(image) && stride > 0 && bs <= |image| + 1 && bs <= Width(image) + 1
    requires a >= CeilDiv(|image| - bs + 1, stride) || b >= CeilDiv(Width(image) - bs + 1, stride)
    ensures Expected(image, bs, stride, fit, a, b) == 0.0
  {
    WrittenBlock(a, |image| - bs + 1, stride);
    WrittenBlock(b, Width(image) - bs + 1, stride);
  }

  /** Distinct window origins land on distinct cells: no cell is written twice. */
  lemma OriginsDistinct(i1: nat, i2: nat, stride: int)
    requires stride > 0 && i1 % stride == 0 && i2 % stride == 0 && i1 != i2
    ensures i1 / stride != i2 / stride
  {
    assert i1 == stride * (i1 / stride) + i1 % stride;
    assert i2 == stride * (i2 / stride) + i2 % stride;
  }

  /** With stride 1 every cell of the map holds the value of its own window. */
  lemma StrideOneFillsMap(image: seq<seq<bool>>, bs: nat, fit: seq<nat> -> real, a: nat, b: nat)
    requires IsRect(image) && a + bs <= |image| && b + bs <= Width(image)
    ensures Expected(image, bs, 1, fit, a, b) == fit(PatchCounts(LocalPatch(image, a, b, bs)))
  {
    assert a * 1 == a && b * 1 == b;
  }

  /** Each count is at most the number of cells ceil(rows / S) * ceil(cols / S). */
  lemma PatchCountBound(patch: seq<seq<bool>>, k: nat)
    requires IsRect(patch) && k < 4
    ensures PatchCounts(patch)[k] <= CeilDiv(|patch|, LocalLadder[k]) * CeilDiv(Width(patch), LocalLadder[k])
  {
    BoxCounting.GridCountBound(patch, LocalLadder[k]);
  }

  /** A 16 x 16 window has a single cell of size 16, so its last count is 0 or 1. */
  lemma FullWindowLastCount(patch: seq<seq<bool>>)
    requires IsRect(patch) && |patch| == 16 && Width(patch) == 16
    ensures PatchCounts(patch)[3] <= 1
  {
    PatchCountBound(patch, 3);
    assert CeilDiv(16, 16) == 1;
  }

  /** An all-background patch gives four zero counts. */
  lemma EmptyPatchCounts(patch: seq<seq<bool>>)
    requires IsRect(patch)
    requires forall r, c :: 0 <= r < |patch| && 0 <= c < Width(patch) ==> !patch[r][c]
    ensures PatchCounts(patch) == [0, 0, 0, 0]
  {
    BoxCounting.AllBackgroundCountsZero(patch, LocalLadder);
  }
}
