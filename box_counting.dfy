/** Whole-image box counting (box-counting.py): the power-of-two ladder of box
    sizes and, for each size, the number of aligned cells that hold a
    foreground pixel. The log-log regression on the counts is not modelled. */
module BoxCounting {
  import opened Raster

  datatype Error =
    | NonPositiveBoxSize  // np.log2 of a size below 1 gives -inf or nan, and int() raises

  /** The samples the regression consumes: box_sizes and box_counts, in order. */
  datatype Samples = Samples(sizes: seq<nat>, counts: seq<nat>)

  function Pow2(k: nat): (p: nat)
    ensures p >= 1
  {
    if k == 0 then 1 else 2 * Pow2(k - 1)
  }

  lemma {:induction false} Pow2Monotone(a: nat, b: nat)
    requires a <= b
    ensures Pow2(a) <= Pow2(b)
    decreases b
  {
    if a < b {
      Pow2Monotone(a, b - 1);
    }
  }

  /** int(np.log2(n)) for a positive integer: the exponent of the largest
      power of two that is not above n. */
  function Log2Floor(n: nat): (k: nat)
    requires n >= 1
    ensures Pow2(k) <= n < 2 * Pow2(k)
  {
    if n < 2 then 0 else 1 + Log2Floor(n / 2)
  }

  /** The ladder of box sizes: the powers of two from the largest one not
      above minBox up to the largest one not above maxBox. */
  function SizeLadder(minBox: int, maxBox: int): (r: Result<seq<nat>, Error>)
    ensures r.Ok? <==> minBox >= 1 && maxBox >= 1
    ensures r.Ok? ==> forall k :: 0 <= k < |r.value| ==> r.value[k] >= 1
    ensures r.Ok? ==> forall k :: 0 <= k < |r.value| - 1 ==> r.value[k + 1] == 2 * r.value[k]
    ensures r.Ok? ==> (|r.value| > 0 <==> Pow2(Log2Floor(minBox)) <= maxBox)
    ensures r.Ok? ==> var lo, hi := Log2Floor(minBox), Log2Floor(maxBox);
              |r.value| == (if lo <= hi then hi - lo + 1 else 0) &&
              forall k :: 0 <= k < |r.value| ==> r.value[k] == Pow2(lo + k)
    ensures r.Ok? && |r.value| > 0 ==> r.value[0] <= minBox < 2 * r.value[0]
    ensures r.Ok? && |r.value| > 0 ==>
              r.value[|r.value| - 1] <= maxBox < 2 * r.value[|r.value| - 1]
  {
    if minBox < 1 || maxBox < 1 then Err(NonPositiveBoxSize) else Ok(Ladder(minBox, maxBox))
  }

  /** The ladder for positive bounds. */
  function Ladder(minBox: nat, maxBox: nat): (s: seq<nat>)
    requires minBox >= 1 && maxBox >= 1
    ensures forall k :: 0 <= k < |s| ==> s[k] >= 1
    ensures forall k :: 0 <= k < |s| - 1 ==> s[k + 1] == 2 * s[k]
    ensures |s| > 0 <==> Pow2(Log2Floor(minBox)) <= maxBox
    ensures var lo, hi := Log2Floor(minBox), Log2Floor(maxBox);
              |s| == (if lo <= hi then hi - lo + 1 else 0) &&
              forall k :: 0 <= k < |s| ==> s[k] == Pow2(lo + k)
    ensures |s| > 0 ==> s[0] <= minBox < 2 * s[0]
    ensures |s| > 0 ==> s[|s| - 1] <= maxBox < 2 * s[|s| - 1]
  {
    var lo := Log2Floor(minBox);
    var hi := Log2Floor(maxBox);
    var sizes := Powers(lo, if lo <= hi then hi - lo + 1 else 0);
    LadderShape(minBox, maxBox, lo, hi, sizes);
    sizes
  }

  /** The facts about the run of consecutive powers of two from 2^lo, the
      largest not above minBox, to 2^hi, the largest not above maxBox. */
  lemma LadderShape(minBox: nat, maxBox: nat, lo: nat, hi: nat, sizes: seq<nat>)
    requires Pow2(lo) <= minBox < 2 * Pow2(lo) && Pow2(hi) <= maxBox < 2 * Pow2(hi)
    requires |sizes| == (if lo <= hi then hi - lo + 1 else 0)
    requires forall k :: 0 <= k < |sizes| ==> sizes[k] == Pow2(lo + k)
    ensures forall k :: 0 <= k < |sizes| ==> sizes[k] >= 1
    ensures forall k :: 0 <= k < |sizes| - 1 ==> sizes[k + 1] == 2 * sizes[k]
    ensures |sizes| > 0 <==> Pow2(lo) <= maxBox
    ensures |sizes| > 0 ==> sizes[0] <= minBox < 2 * sizes[0]
    ensures |sizes| > 0 ==> sizes[|sizes| - 1] <= maxBox < 2 * sizes[|sizes| - 1]
  {
    LadderFacts(lo, hi);
    PowersDouble(sizes, lo);
    if lo <= hi {
      assert sizes[|sizes| - 1] == Pow2(hi);
    }
  }

  /** The n powers of two 2^lo, 2^(lo+1), ... */
  function Powers(lo: nat, n: nat): (p: seq<nat>)
    ensures |p| == n
    ensures forall k :: 0 <= k < n ==> p[k] == Pow2(lo + k)
    decreases n
  {
    if n == 0 then [] else [Pow2(lo)] + Powers(lo + 1, n - 1)
  }

  lemma PowersDouble(sizes: seq<nat>, lo: nat)
    requires forall k :: 0 <= k < |sizes| ==> sizes[k] == Pow2(lo + k)
    ensures forall k :: 0 <= k < |sizes| - 1 ==> sizes[k + 1] == 2 * sizes[k]
  {
    forall k | 0 <= k < |sizes| - 1
      ensures sizes[k + 1] == 2 * sizes[k]
    {
      assert sizes[k + 1] == Pow2(lo + k + 1);
    }
  }

  lemma LadderFacts(lo: nat, hi: nat)
    ensures lo <= hi ==> Pow2(lo) <= Pow2(hi)
    ensures lo > hi ==> Pow2(lo) >= 2 * Pow2(hi)
  {
    if lo <= hi {
      Pow2Monotone(lo, hi);
    } else {
      Pow2Monotone(hi + 1, lo);
    }
  }

  /** The sizes are strictly increasing. */
  lemma {:induction false} LadderIncreasing(minBox: int, maxBox: int, a: nat, b: nat)
    requires SizeLadder(minBox, maxBox).Ok?
    requires a < b < |SizeLadder(minBox, maxBox).value|
    ensures SizeLadder(minBox, maxBox).value[a] < SizeLadder(minBox, maxBox).value[b]
    decreases b - a
  {
    var s := SizeLadder(minBox, maxBox).value;
    if a + 1 < b {
      LadderIncreasing(minBox, maxBox, a + 1, b);
    }
  }

  /** The default arguments give the ladder 2, 4, ..., 128. */
  lemma DefaultLadder()
    ensures SizeLadder(2, 128) == Ok([2, 4, 8, 16, 32, 64, 128])
  {
    assert Log2Floor(2) == 1;
    assert Log2Floor(128) == 7;
    assert Powers(1, 7) == [2, 4, 8, 16, 32, 64, 128];
  }

  /** A minimum above the maximum gives an empty ladder, not an error. */
  lemma EmptyLadder()
    ensures SizeLadder(8, 4) == Ok([])
  {
    assert Log2Floor(8) == 3;
    assert Log2Floor(4) == 2;
  }

  /** The binary image: a pixel is foreground exactly when its value is positive. */
  function Binarize(image: seq<seq<real>>): (b: seq<seq<bool>>)
    ensures |b| == |image|
    ensures forall r :: 0 <= r < |image| ==> |b[r]| == |image[r]|
    ensures forall r, c :: 0 <= r < |image| && 0 <= c < |image[r]| ==> (b[r][c] <==> image[r][c] > 0.0)
    ensures IsRect(image) ==> IsRect(b) && Width(b) == Width(image)
  {
    seq(|image|, r requires 0 <= r < |image| =>
      seq(|image[r]|, c requires 0 <= c < |image[r]| => image[r][c] > 0.0))
  }

  /** The cell of size s at (i, j) holds a foreground pixel. Numpy clips the slice at the border, so a
      partial edge cell is examined on the pixels it has. */
  predicate Occupied(m: seq<seq<bool>>, s: nat, i: nat, j: nat)
    requires IsRect(m)
  {
    exists r, c | i <= r < Min(i + s, |m|) && j <= c < Min(j + s, Width(m)) :: m[r][c]
  }

  function Indicator(b: bool): nat
  {
    if b then 1 else 0
  }

  /** Occupied cells of size s whose top row is i and whose left columns are
      j, j + s, j + 2s, ... below the width. */
  function RowCount(m: seq<seq<bool>>, s: nat, i: nat, j: nat): nat
    requires IsRect(m) && s >= 1
    decreases Width(m) - j
  {
    if j >= Width(m) then 0
    else Indicator(Occupied(m, s, i, j)) + RowCount(m, s, i, j + s)
  }

  /** Occupied cells of size s in the bands of rows i, i + s, ... below the height. */
  function BandCount(m: seq<seq<bool>>, s: nat, i: nat): nat
    requires IsRect(m) && s >= 1
    decreases |m| - i
  {
    if i >= |m| then 0 else RowCount(m, s, i, 0) + BandCount(m, s, i + s)
  }

  /** grid_count for box size s: occupied cells of the aligned grid with origins
      at the multiples of s. */
  function GridCount(m: seq<seq<bool>>, s: nat): nat
    requires IsRect(m) && s >= 1
  {
    BandCount(m, s, 0)
  }

  /** The counts for a list of sizes, in the same order. */
  function Counts(m: seq<seq<bool>>, sizes: seq<nat>): (r: seq<nat>)
    requires IsRect(m) && forall k :: 0 <= k < |sizes| ==> sizes[k] >= 1
    ensures |r| == |sizes|
  {
    seq(|sizes|, k requires 0 <= k < |sizes| => GridCount(m, sizes[k]))
  }

  /** The nested loops of box-counting.py:23-28 for one box size. */
  method CountOccupied(m: seq<seq<bool>>, s: nat) returns (n: nat)
    requires IsRect(m) && s >= 1
    ensures n == GridCount(m, s)
  {
    n := 0;
    var i := 0;
    while i < |m|
      invariant n + BandCount(m, s, i) == GridCount(m, s)
      decreases |m| - i
    {
      var j := 0;
      while j < Width(m)
        invariant n + RowCount(m, s, i, j) + BandCount(m, s, i + s) == GridCount(m, s)
        decreases Width(m) - j
      {
        if Occupied(m, s, i, j) {
          n := n + 1;
        }
        j := j + s;
      }
      i := i + s;
    }
  }

  /** `box_counting` without the regression: the sizes of the ladder and, for
      each, the count of occupied cells of the binarised image. */
  method BoxCount(image: seq<seq<real>>, minBox: int, maxBox: int) returns (r: Result<Samples, Error>)
    requires IsRect(image)
    ensures r.Ok? <==> SizeLadder(minBox, maxBox).Ok?
    ensures r.Err? ==> r.error == SizeLadder(minBox, maxBox).error
    ensures r.Ok? ==> r.value.sizes == SizeLadder(minBox, maxBox).value
    ensures r.Ok? ==> r.value.counts == Counts(Binarize(image), r.value.sizes)
  {
    var ladder := SizeLadder(minBox, maxBox);
    if ladder.Err? {
      return Err(ladder.error);
    }
    var sizes := ladder.value;
    var binary := Binarize(image);
    var boxSizes: seq<nat> := [];
    var boxCounts: seq<nat> := [];
    for k := 0 to |sizes|
      invariant boxSizes == sizes[..k]
      invariant boxCounts == Counts(binary, sizes[..k])
    {
      var count := CountOccupied(binary, sizes[k]);
      boxSizes := boxSizes + [sizes[k]];
      boxCounts := boxCounts + [count];
    }
    return Ok(Samples(boxSizes, boxCounts));
  }

  // ---------------------------------------------------------------------------
  // What the counts mean

  /** The aligned cell origins (i, j) of size s, i and j multiples of s inside
      the image, whose clipped cell holds a foreground pixel. */
  ghost function OccupiedOrigins(m: seq<seq<bool>>, s: nat): set<(nat, nat)>
    requires IsRect(m) && s >= 1
  {
    set i: nat, j: nat | i < |m| && j < Width(m) && i % s == 0 && j % s == 0 && Occupied(m, s, i, j) :: (i, j)
  }

  ghost function RowOrigins(m: seq<seq<bool>>, s: nat, i: nat, j0: nat): set<(nat, nat)>
    requires IsRect(m) && s >= 1
  {
    set j: nat | j0 <= j < Width(m) && j % s == 0 && Occupied(m, s, i, j) :: (i, j)
  }

  ghost function BandOrigins(m: seq<seq<bool>>, s: nat, i0: nat): set<(nat, nat)>
    requires IsRect(m) && s >= 1
  {
    set i: nat, j: nat | i0 <= i < |m| && j < Width(m) && i % s == 0 && j % s == 0 && Occupied(m, s, i, j) :: (i, j)
  }

  /** Between two consecutive multiples of s there is no other multiple. */
  lemma NextMultiple(x0: nat, s: nat, x: nat)
    requires s >= 1 && x0 % s == 0 && x0 < x < x0 + s
    ensures x % s != 0
  {
    var q := x0 / s;
    assert x0 == q * s;
    DivUnique(x, s, q, x - x0);
    assert x == s * (x / s) + x % s;
  }

  lemma MultipleStep(x0: nat, s: nat)
    requires s >= 1 && x0 % s == 0
    ensures (x0 + s) % s == 0
  {
    var q := x0 / s;
    assert x0 == q * s;
    DivUnique(x0 + s, s, q + 1, 0);
    assert x0 + s == s * ((x0 + s) / s) + (x0 + s) % s;
  }

  lemma {:induction false} RowOriginsCount(m: seq<seq<bool>>, s: nat, i: nat, j0: nat)
    requires IsRect(m) && s >= 1 && j0 % s == 0
    ensures |RowOrigins(m, s, i, j0)| == RowCount(m, s, i, j0)
    decreases Width(m) - j0
  {
    if j0 >= Width(m) {
      assert RowOrigins(m, s, i, j0) == {};
    } else {
      MultipleStep(j0, s);
      RowOriginsCount(m, s, i, j0 + s);
      RowOriginsSplit(m, s, i, j0);
    }
  }

  lemma RowOriginsSplit(m: seq<seq<bool>>, s: nat, i: nat, j0: nat)
    requires IsRect(m) && s >= 1 && j0 % s == 0 && j0 < Width(m)
    ensures |RowOrigins(m, s, i, j0)| ==
            Indicator(Occupied(m, s, i, j0)) + |RowOrigins(m, s, i, j0 + s)|
  {
    var all := RowOrigins(m, s, i, j0);
    var rest := RowOrigins(m, s, i, j0 + s);
    var head: set<(nat, nat)> := if Occupied(m, s, i, j0) then {(i, j0)} else {};
    forall p | p in all
      ensures p in head + rest
    {
      var j: nat :| j0 <= j < Width(m) && j % s == 0 && Occupied(m, s, i, j) && p == (i, j);
      if j0 < j < j0 + s {
        NextMultiple(j0, s, j);
      }
    }
    assert all == head + rest;
    assert head * rest == {};
  }

  lemma {:induction false} BandOriginsCount(m: seq<seq<bool>>, s: nat, i0: nat)
    requires IsRect(m) && s >= 1 && i0 % s == 0
    ensures |BandOrigins(m, s, i0)| == BandCount(m, s, i0)
    decreases |m| - i0
  {
    if i0 >= |m| {
      assert BandOrigins(m, s, i0) == {};
    } else {
      MultipleStep(i0, s);
      BandOriginsCount(m, s, i0 + s);
      RowOriginsCount(m, s, i0, 0);
      BandOriginsSplit(m, s, i0);
    }
  }

  lemma BandOriginsSplit(m: seq<seq<bool>>, s: nat, i0: nat)
    requires IsRect(m) && s >= 1 && i0 % s == 0 && i0 < |m|
    ensures |BandOrigins(m, s, i0)| == |RowOrigins(m, s, i0, 0)| + |BandOrigins(m, s, i0 + s)|
  {
    var all := BandOrigins(m, s, i0);
    var rest := BandOrigins(m, s, i0 + s);
    var row := RowOrigins(m, s, i0, 0);
    forall p | p in all
      ensures p in row + rest
    {
      var i: nat, j: nat :| i0 <= i < |m| && j < Width(m) && i % s == 0 && j % s == 0 &&
                            Occupied(m, s, i, j) && p == (i, j);
      if i0 < i < i0 + s {
        NextMultiple(i0, s, i);
      }
    }
    assert all == row + rest;
    assert row * rest == {};
  }

  /** grid_count is the number of occupied aligned cells, partial edge cells included. */
  lemma GridCountIsOccupiedOrigins(m: seq<seq<bool>>, s: nat)
    requires IsRect(m) && s >= 1
    ensures GridCount(m, s) == |OccupiedOrigins(m, s)|
  {
    BandOriginsCount(m, s, 0);
    assert OccupiedOrigins(m, s) == BandOrigins(m, s, 0);
  }

  // ---------------------------------------------------------------------------
  // Bounds

  lemma {:induction false} RowBound(m: seq<seq<bool>>, s: nat, i: nat, j: nat)
    requires IsRect(m) && s >= 1
    ensures RowCount(m, s, i, j) <= Origins(Width(m) - j, s)
    ensures (i < |m| && forall r, c :: 0 <= r < |m| && 0 <= c < Width(m) ==> m[r][c]) ==>
              RowCount(m, s, i, j) == Origins(Width(m) - j, s)
    decreases Width(m) - j
  {
    if j < Width(m) {
      RowBound(m, s, i, j + s);
      if i < |m| && forall r, c :: 0 <= r < |m| && 0 <= c < Width(m) ==> m[r][c] {
        assert i <= i < Min(i + s, |m|) && j <= j < Min(j + s, Width(m)) && m[i][j];
      }
    }
  }

  lemma {:induction false} BandBound(m: seq<seq<bool>>, s: nat, i: nat)
    requires IsRect(m) && s >= 1
    ensures BandCount(m, s, i) <= Origins(|m| - i, s) * Origins(Width(m), s)
    ensures (forall r, c :: 0 <= r < |m| && 0 <= c < Width(m) ==> m[r][c]) ==>
              BandCount(m, s, i) == Origins(|m| - i, s) * Origins(Width(m), s)
    decreases |m| - i
  {
    if i < |m| {
      BandBound(m, s, i + s);
      RowBound(m, s, i, 0);
      var w := Origins(Width(m), s);
      assert Origins(|m| - i, s) * w == w + Origins(|m| - i - s, s) * w;
    }
  }

  /** 0 <= grid_count <= ceil(H/s) * ceil(W/s), with equality when every pixel is foreground. */
  lemma GridCountBound(m: seq<seq<bool>>, s: nat)
    requires IsRect(m) && s >= 1
    ensures GridCount(m, s) <= CeilDiv(|m|, s) * CeilDiv(Width(m), s)
    ensures (forall r, c :: 0 <= r < |m| && 0 <= c < Width(m) ==> m[r][c]) ==>
              GridCount(m, s) == CeilDiv(|m|, s) * CeilDiv(Width(m), s)
  {
    BandBound(m, s, 0);
    OriginsIsCeil(|m|, s);
    OriginsIsCeil(Width(m), s);
  }

  lemma {:induction false} RowEmpty(m: seq<seq<bool>>, s: nat, i: nat, j: nat)
    requires IsRect(m) && s >= 1
    requires i >= |m| || forall r, c :: 0 <= r < |m| && 0 <= c < Width(m) ==> !m[r][c]
    ensures RowCount(m, s, i, j) == 0
    decreases Width(m) - j
  {
    if j < Width(m) {
      RowEmpty(m, s, i, j + s);
    }
  }

  lemma {:induction false} BandEmpty(m: seq<seq<bool>>, s: nat, i: nat)
    requires IsRect(m) && s >= 1
    requires forall r, c :: 0 <= r < |m| && 0 <= c < Width(m) ==> !m[r][c]
    ensures BandCount(m, s, i) == 0
    decreases |m| - i
  {
    if i < |m| {
      RowEmpty(m, s, i, 0);
      BandEmpty(m, s, i + s);
    }
  }

  /** An all-background image gives count 0 at every size: the input on which
      the later log transform is undefined. */
  lemma AllBackgroundCountsZero(m: seq<seq<bool>>, sizes: seq<nat>)
    requires IsRect(m) && forall k :: 0 <= k < |sizes| ==> sizes[k] >= 1
    requires forall r, c :: 0 <= r < |m| && 0 <= c < Width(m) ==> !m[r][c]
    ensures forall k :: 0 <= k < |sizes| ==> Counts(m, sizes)[k] == 0
  {
    forall k | 0 <= k < |sizes|
      ensures Counts(m, sizes)[k] == 0
    {
      BandEmpty(m, sizes[k], 0);
    }
  }

  // ---------------------------------------------------------------------------
  // Doubling the box size never increases the count

  /** An occupied cell of size 2s contains an occupied cell of size s: the
      grids are aligned, so it is the union of four of them. */
  lemma SplitCell(m: seq<seq<bool>>, s: nat, i: nat, j: nat)
    requires IsRect(m) && s >= 1
    requires Occupied(m, 2 * s, i, j)
    ensures Occupied(m, s, i, j) || Occupied(m, s, i, j + s) ||
            Occupied(m, s, i + s, j) || Occupied(m, s, i + s, j + s)
  {
    var r, c :| i <= r < Min(i + 2 * s, |m|) && j <= c < Min(j + 2 * s, Width(m)) && m[r][c];
    if r < i + s && c < j + s {
      assert i <= r < Min(i + s, |m|) && j <= c < Min(j + s, Width(m));
    } else if r < i + s {
      assert i <= r < Min(i + s, |m|) && j + s <= c < Min(j + s + s, Width(m));
    } else if c < j + s {
      assert i + s <= r < Min(i + s + s, |m|) && j <= c < Min(j + s, Width(m));
    } else {
      assert i + s <= r < Min(i + s + s, |m|) && j + s <= c < Min(j + s + s, Width(m));
    }
  }

  lemma RowUnfold(m: seq<seq<bool>>, s: nat, i: nat, j: nat)
    requires IsRect(m) && s >= 1
    ensures RowCount(m, s, i, j) == Indicator(Occupied(m, s, i, j)) + RowCount(m, s, i, j + s)
  {
    if j >= Width(m) {
      assert !Occupied(m, s, i, j);
    }
  }

  lemma {:induction false} RowDouble(m: seq<seq<bool>>, s: nat, i: nat, j: nat)
    requires IsRect(m) && s >= 1
    ensures RowCount(m, 2 * s, i, j) <= RowCount(m, s, i, j) + RowCount(m, s, i + s, j)
    decreases Width(m) - j
  {
    if j < Width(m) {
      RowDouble(m, s, i, j + 2 * s);
      RowUnfold(m, s, i, j);
      RowUnfold(m, s, i, j + s);
      RowUnfold(m, s, i + s, j);
      RowUnfold(m, s, i + s, j + s);
      if Occupied(m, 2 * s, i, j) {
        SplitCell(m, s, i, j);
      }
      assert j + s + s == j + 2 * s;
    }
  }

  lemma {:induction false} BandDouble(m: seq<seq<bool>>, s: nat, i: nat)
    requires IsRect(m) && s >= 1
    ensures BandCount(m, 2 * s, i) <= BandCount(m, s, i)
    decreases |m| - i
  {
    if i < |m| {
      BandDouble(m, s, i + 2 * s);
      RowDouble(m, s, i, 0);
      if i + s >= |m| {
        RowEmpty(m, s, i + s, 0);
      }
      assert i + s + s == i + 2 * s;
    }
  }

  /** The count never increases when the box size doubles. */
  lemma GridCountDoubling(m: seq<seq<bool>>, s: nat)
    requires IsRect(m) && s >= 1
    ensures GridCount(m, 2 * s) <= GridCount(m, s)
  {
    BandDouble(m, s, 0);
  }

  /** Along a doubling ladder the counts are non-increasing. */
  lemma CountsNonIncreasing(m: seq<seq<bool>>, sizes: seq<nat>)
    requires IsRect(m) && forall k :: 0 <= k < |sizes| ==> sizes[k] >= 1
    requires forall k :: 0 <= k < |sizes| - 1 ==> sizes[k + 1] == 2 * sizes[k]
    ensures forall k :: 0 <= k < |sizes| - 1 ==> Counts(m, sizes)[k + 1] <= Counts(m, sizes)[k]
  {
    forall k | 0 <= k < |sizes| - 1
      ensures Counts(m, sizes)[k + 1] <= Counts(m, sizes)[k]
    {
      GridCountDoubling(m, sizes[k]);
    }
  }

  /** The samples box_counting produces have non-increasing counts. */
  lemma LadderCountsNonIncreasing(image: seq<seq<real>>, minBox: int, maxBox: int)
    requires IsRect(image) && SizeLadder(minBox, maxBox).Ok?
    ensures var sizes := SizeLadder(minBox, maxBox).value;
            forall k :: 0 <= k < |sizes| - 1 ==>
              Counts(Binarize(image), sizes)[k + 1] <= Counts(Binarize(image), sizes)[k]
  {
    CountsNonIncreasing(Binarize(image), SizeLadder(minBox, maxBox).value);
  }
}
