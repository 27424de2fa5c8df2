/** The Newton-Raphson basins of newton-raphson.py. Every round moves each
    point of the grid by one Newton step, snaps the points that came within
    tol of a known root onto that root and labels them with its 1-based
    index, and then registers as new roots, in row-major order, the unlabelled
    points that moved by less than tol and lie farther than tol from every
    root known so far. The Newton map is a parameter `step`; the one the
    source uses for z^3 - 1 is CubicStep below. */
module NewtonBasins {
  import opened Raster
  import opened ComplexPlane
  import Mesh

  /** |a - b| < tol, through squares: |x| < tol holds exactly when tol > 0
      and |x|^2 < tol^2. */
  predicate Within(a: Complex, b: Complex, tol: real)
  {
    tol > 0.0 && DistSq(a, b) < tol * tol
  }

  /** |a - b| > tol, through squares: |x| > tol holds exactly when tol < 0
      or |x|^2 > tol^2. */
  predicate Far(a: Complex, b: Complex, tol: real)
  {
    tol < 0.0 || DistSq(a, b) > tol * tol
  }

  lemma WithinNotFar(a: Complex, b: Complex, tol: real)
    ensures Within(a, b, tol) ==> !Far(a, b, tol)
  {
  }

  /** One grid point: its current z and its entry in `convergence`. */
  datatype Pixel = Pixel(z: Complex, basin: int)

  // ---------------------------------------------------------------------
  // Snapping onto the known roots
  // ---------------------------------------------------------------------

  /** The loop over `enumerate(roots)` restricted to the first n roots: each
      root in turn captures the point when it is within tol of it, storing the
      root in Z and root_idx + 1 in convergence. */
  function Classify(p: Pixel, roots: seq<Complex>, tol: real, n: nat): Pixel
    requires n <= |roots|
  {
    if n == 0 then p
    else
      var q := Classify(p, roots, tol, n - 1);
      if Within(q.z, roots[n - 1], tol) then Pixel(roots[n - 1], n) else q
  }

  /** A snapped point sits exactly on the root its label names. */
  lemma {:induction false} ClassifyLabels(p: Pixel, roots: seq<Complex>, tol: real, n: nat)
    requires n <= |roots|
    ensures var q := Classify(p, roots, tol, n);
            q == p || (1 <= q.basin <= n && q.z == roots[q.basin - 1])
  {
    if n > 0 {
      ClassifyLabels(p, roots, tol, n - 1);
    }
  }

  /** The index of the first of the first n roots within tol of z, or n. */
  function FirstWithin(z: Complex, roots: seq<Complex>, tol: real, n: nat): (k: nat)
    requires n <= |roots|
    ensures k <= n
    ensures forall i :: 0 <= i < k ==> !Within(z, roots[i], tol)
    ensures k < n ==> Within(z, roots[k], tol)
  {
    if n == 0 then 0
    else
      var k := FirstWithin(z, roots, tol, n - 1);
      if k < n - 1 then k
      else if Within(z, roots[n - 1], tol) then n - 1
      else n
  }

  /** Known roots are pairwise farther than tol apart: each one was far from
      all those before it when it was added. */
  predicate Separated(roots: seq<Complex>, tol: real)
  {
    forall i, j :: 0 <= i < j < |roots| ==> Far(roots[j], roots[i], tol)
  }

  /** With separated roots the FIRST root within tol captures the point: once
      snapped onto it, no later root is within tol. */
  lemma {:induction false} FirstMatchWins(p: Pixel, roots: seq<Complex>, tol: real, n: nat)
    requires n <= |roots| && Separated(roots, tol)
    ensures var k := FirstWithin(p.z, roots, tol, n);
            Classify(p, roots, tol, n) == (if k < n then Pixel(roots[k], k + 1) else p)
  {
    if n > 0 {
      FirstMatchWins(p, roots, tol, n - 1);
      var k := FirstWithin(p.z, roots, tol, n - 1);
      if k < n - 1 {
        DistSqSymmetric(roots[k], roots[n - 1]);
        WithinNotFar(roots[k], roots[n - 1], tol);
      }
    }
  }

  // ---------------------------------------------------------------------
  // Registering new roots
  // ---------------------------------------------------------------------

  /** x is farther than tol from every root in the list. */
  predicate AllFar(x: Complex, roots: seq<Complex>, tol: real)
  {
    forall k :: 0 <= k < |roots| ==> Far(x, roots[k], tol)
  }

  function AddIfFar(roots: seq<Complex>, x: Complex, tol: real): seq<Complex>
  {
    if AllFar(x, roots, tol) then roots + [x] else roots
  }

  /** The loop over new_roots: each candidate in turn is appended when it is
      far from every root known at that moment, including those appended just
      before it. */
  function Register(roots: seq<Complex>, cands: seq<Complex>, tol: real): seq<Complex>
  {
    if |cands| == 0 then roots
    else AddIfFar(Register(roots, cands[..|cands| - 1], tol), cands[|cands| - 1], tol)
  }

  /** Registering only appends: the known roots and their indices stay. */
  lemma {:induction false} RegisterExtends(roots: seq<Complex>, cands: seq<Complex>, tol: real)
    ensures var r := Register(roots, cands, tol);
            roots <= r && |r| <= |roots| + |cands|
  {
    if |cands| > 0 {
      RegisterExtends(roots, cands[..|cands| - 1], tol);
    }
  }

  /** Every registered root is one of the candidates. */
  lemma {:induction false} RegisterFromCandidates(roots: seq<Complex>, cands: seq<Complex>, tol: real)
    ensures var r := Register(roots, cands, tol);
            forall k :: |roots| <= k < |r| ==> r[k] in cands
  {
    if |cands| > 0 {
      var front := cands[..|cands| - 1];
      RegisterFromCandidates(roots, front, tol);
      RegisterExtends(roots, front, tol);
      var r := Register(roots, cands, tol);
      forall k | |roots| <= k < |r|
        ensures r[k] in cands
      {
        if k < |Register(roots, front, tol)| {
          assert r[k] in front;
        } else {
          assert r[k] == cands[|cands| - 1];
        }
      }
    }
  }

  /** Registering keeps the roots pairwise separated. */
  lemma {:induction false} RegisterSeparated(roots: seq<Complex>, cands: seq<Complex>, tol: real)
    requires Separated(roots, tol)
    ensures Separated(Register(roots, cands, tol), tol)
  {
    if |cands| > 0 {
      RegisterSeparated(roots, cands[..|cands| - 1], tol);
    }
  }

  /** x is not farther than tol from some root (the negation of AllFar). */
  predicate NearSome(x: Complex, roots: seq<Complex>, tol: real)
  {
    exists k :: 0 <= k < |roots| && !Far(x, roots[k], tol)
  }

  /** No candidate is left far from all roots: each one is a root or within
      tol (in the non-strict sense) of one. A negative tol makes every pair
      far, so it is excluded here. */
  lemma {:induction false} RegisterCovers(roots: seq<Complex>, cands: seq<Complex>, tol: real)
    requires tol >= 0.0
    ensures forall x :: x in cands ==> NearSome(x, Register(roots, cands, tol), tol)
  {
    if |cands| > 0 {
      var front := cands[..|cands| - 1];
      var x := cands[|cands| - 1];
      var r0 := Register(roots, front, tol);
      var r := Register(roots, cands, tol);
      assert cands == front + [x];
      RegisterCovers(roots, front, tol);
      assert r0 <= r;
      forall y | y in cands
        ensures NearSome(y, r, tol)
      {
        if y in front {
          var k :| 0 <= k < |r0| && !Far(y, r0[k], tol);
          assert r[k] == r0[k];
        } else if AllFar(x, r0, tol) {
          assert r[|r0|] == x;
          SelfNotFar(x, tol);
        } else {
          var k :| 0 <= k < |r0| && !Far(x, r0[k], tol);
          assert r[k] == r0[k];
        }
      }
    }
  }

  lemma SelfNotFar(x: Complex, tol: real)
    requires tol >= 0.0
    ensures !Far(x, x, tol)
  {
    DistSqSelf(x);
    SquareNonNegative(tol);
  }

  // ---------------------------------------------------------------------
  // One round over the whole grid
  // ---------------------------------------------------------------------

  /** The state the loop carries from round to round. */
  datatype Basins = Basins(px: seq<seq<Pixel>>, roots: seq<Complex>)

  /** One Newton step followed by the snapping loop, for one point. */
  function Advance(p: Pixel, step: Complex -> Complex, roots: seq<Complex>, tol: real): Pixel
  {
    Classify(Pixel(step(p.z), p.basin), roots, tol, |roots|)
  }

  function AdvanceRow(row: seq<Pixel>, step: Complex -> Complex, roots: seq<Complex>, tol: real): (row': seq<Pixel>)
    ensures |row'| == |row|
    ensures forall c :: 0 <= c < |row| ==> row'[c] == Advance(row[c], step, roots, tol)
  {
    if |row| == 0 then []
    else AdvanceRow(row[..|row| - 1], step, roots, tol) + [Advance(row[|row| - 1], step, roots, tol)]
  }

  function AdvanceGrid(g: seq<seq<Pixel>>, step: Complex -> Complex, roots: seq<Complex>, tol: real): (g': seq<seq<Pixel>>)
    ensures |g'| == |g| && forall r :: 0 <= r < |g| ==> |g'[r]| == |g[r]|
    ensures forall r, c :: 0 <= r < |g| && 0 <= c < |g[r]| ==> g'[r][c] == Advance(g[r][c], step, roots, tol)
  {
    if |g| == 0 then []
    else AdvanceGrid(g[..|g| - 1], step, roots, tol) + [AdvanceRow(g[|g| - 1], step, roots, tol)]
  }

  /** A new-root candidate: the step moved the point by less than tol, and the
      point carries no label after the snapping loop. */
  predicate IsCandidate(prev: Pixel, cur: Pixel, step: Complex -> Complex, tol: real)
  {
    Within(step(prev.z), prev.z, tol) && cur.basin == 0
  }

  /** The values of the candidate cells among the first c cells of one row. */
  function RowCands(prev: seq<Pixel>, cur: seq<Pixel>, step: Complex -> Complex, tol: real, c: nat): seq<Complex>
    requires c <= |prev| && c <= |cur|
  {
    if c == 0 then []
    else RowCands(prev, cur, step, tol, c - 1) + (if IsCandidate(prev[c - 1], cur[c - 1], step, tol) then [cur[c - 1].z] else [])
  }

  /** The values of the candidate cells of the first r rows, in row-major order. */
  function GridCands(prev: seq<seq<Pixel>>, cur: seq<seq<Pixel>>, step: Complex -> Complex, tol: real, r: nat): seq<Complex>
    requires r <= |prev| && r <= |cur|
    requires forall i :: 0 <= i < r ==> |prev[i]| == |cur[i]|
  {
    if r == 0 then []
    else GridCands(prev, cur, step, tol, r - 1) + RowCands(prev[r - 1], cur[r - 1], step, tol, |cur[r - 1]|)
  }

  /** Round i of the loop: step and snap every point, then register the
      candidates against the roots. */
  function Round(b: Basins, step: Complex -> Complex, tol: real): (b': Basins)
    ensures |b'.px| == |b.px| && forall r :: 0 <= r < |b.px| ==> |b'.px[r]| == |b.px[r]|
  {
    var cur := AdvanceGrid(b.px, step, b.roots, tol);
    Basins(cur, Register(b.roots, GridCands(b.px, cur, step, tol, |b.px|), tol))
  }

  /** f applied n times to b. */
  function Power(f: Basins -> Basins, b: Basins, n: nat): Basins
  {
    if n == 0 then b else f(Power(f, b, n - 1))
  }

  /** One round, as a function of the state alone. */
  function RoundBy(step: Complex -> Complex, tol: real): Basins -> Basins
  {
    b => Round(b, step, tol)
  }

  /** The state after n rounds. */
  function Iterate(b: Basins, step: Complex -> Complex, tol: real, n: nat): (b': Basins)
    ensures SameGrid(b', b)
  {
    var P := (x: Basins) => SameGrid(x, b);
    assert forall x :: P(x) ==> P(RoundBy(step, tol)(x));
    PowerKeeps(RoundBy(step, tol), P, b, 0, n);
    Power(RoundBy(step, tol), b, n)
  }

  /** x has as many rows as b, each as long as b's. */
  predicate SameGrid(x: Basins, b: Basins)
  {
    |x.px| == |b.px| && forall r :: 0 <= r < |b.px| ==> |x.px[r]| == |b.px[r]|
  }

  /** Z is the sampled plane, convergence is zero and no root is known. */
  function Initial(plane: seq<seq<Complex>>): (b: Basins)
    ensures |b.px| == |plane| && b.roots == []
    ensures forall r :: 0 <= r < |plane| ==> |b.px[r]| == |plane[r]|
    ensures forall r, c :: 0 <= r < |plane| && 0 <= c < |plane[r]| ==> b.px[r][c] == Pixel(plane[r][c], 0)
  {
    Basins(seq(|plane|, r requires 0 <= r < |plane| => seq(|plane[r]|, c requires 0 <= c < |plane[r]| => Pixel(plane[r][c], 0))), [])
  }

  /** The facts every round keeps: the roots are separated and every label
      is 0 or the 1-based index of a known root. */
  predicate Inv(b: Basins, tol: real)
  {
    Separated(b.roots, tol) &&
    forall r, c :: 0 <= r < |b.px| && 0 <= c < |b.px[r]| ==> 0 <= b.px[r][c].basin <= |b.roots|
  }

  // ---------------------------------------------------------------------
  // Properties of the candidates and of a round
  // ---------------------------------------------------------------------

  /** A value is among the candidates of a row exactly when some cell of the
      row is a candidate holding it. */
  lemma {:induction false} RowCandsExactly(prev: seq<Pixel>, cur: seq<Pixel>, step: Complex -> Complex, tol: real, c: nat, x: Complex)
    requires c <= |prev| && c <= |cur|
    ensures x in RowCands(prev, cur, step, tol, c) <==>
            exists k :: 0 <= k < c && IsCandidate(prev[k], cur[k], step, tol) && cur[k].z == x
  {
    if c > 0 {
      RowCandsExactly(prev, cur, step, tol, c - 1, x);
    }
  }

  /** A value is a candidate of the grid exactly when some cell is a
      candidate holding it. */
  lemma {:induction false} CandidatesExactly(prev: seq<seq<Pixel>>, cur: seq<seq<Pixel>>, step: Complex -> Complex, tol: real, r: nat, x: Complex)
    requires r <= |prev| && r <= |cur|
    requires forall i :: 0 <= i < r ==> |prev[i]| == |cur[i]|
    ensures x in GridCands(prev, cur, step, tol, r) <==>
            exists i, k :: 0 <= i < r && 0 <= k < |cur[i]| && IsCandidate(prev[i][k], cur[i][k], step, tol) && cur[i][k].z == x
  {
    if r > 0 {
      CandidatesExactly(prev, cur, step, tol, r - 1, x);
      RowCandsExactly(prev[r - 1], cur[r - 1], step, tol, |cur[r - 1]|, x);
    }
  }

  /** A round keeps the invariant. */
  lemma RoundKeepsInv(b: Basins, step: Complex -> Complex, tol: real)
    requires Inv(b, tol)
    ensures Inv(Round(b, step, tol), tol)
  {
    var cur := AdvanceGrid(b.px, step, b.roots, tol);
    var cands := GridCands(b.px, cur, step, tol, |b.px|);
    RegisterSeparated(b.roots, cands, tol);
    RegisterExtends(b.roots, cands, tol);
    forall r, c | 0 <= r < |b.px| && 0 <= c < |b.px[r]|
      ensures 0 <= cur[r][c].basin <= |b.roots|
    {
      ClassifyLabels(Pixel(step(b.px[r][c].z), b.px[r][c].basin), b.roots, tol, |b.roots|);
    }
  }

  /** What a round does to one point when the roots are separated: it takes
      one step and is then captured by the first root within tol, if any. */
  lemma RoundPixel(b: Basins, step: Complex -> Complex, tol: real, r: nat, c: nat)
    requires Inv(b, tol) && r < |b.px| && c < |b.px[r]|
    ensures var z := step(b.px[r][c].z);
            var k := FirstWithin(z, b.roots, tol, |b.roots|);
            Round(b, step, tol).px[r][c] == (if k < |b.roots| then Pixel(b.roots[k], k + 1) else Pixel(z, b.px[r][c].basin))
  {
    FirstMatchWins(Pixel(step(b.px[r][c].z), b.px[r][c].basin), b.roots, tol, |b.roots|);
  }

  /** A round only appends roots. */
  lemma RoundRootsGrow(b: Basins, step: Complex -> Complex, tol: real)
    ensures b.roots <= Round(b, step, tol).roots
  {
    var cur := AdvanceGrid(b.px, step, b.roots, tol);
    RegisterExtends(b.roots, GridCands(b.px, cur, step, tol, |b.px|), tol);
  }

  /** Point (r, c) exists and carries a label. */
  predicate Labelled(b: Basins, r: nat, c: nat)
  {
    r < |b.px| && c < |b.px[r]| && b.px[r][c].basin != 0
  }

  /** A round never clears a label. */
  lemma RoundKeepsLabels(b: Basins, step: Complex -> Complex, tol: real, r: nat, c: nat)
    requires Labelled(b, r, c)
    ensures Labelled(Round(b, step, tol), r, c)
  {
    ClassifyLabels(Pixel(step(b.px[r][c].z), b.px[r][c].basin), b.roots, tol, |b.roots|);
  }

  lemma PrefixTransitive<T>(a: seq<T>, b: seq<T>, c: seq<T>)
    requires a <= b && b <= c
    ensures a <= c
  {
    assert c[..|b|][..|a|] == c[..|a|];
  }

  /** A property that every round keeps, and that holds after m rounds,
      holds after every later round. */
  lemma {:induction false} PowerKeeps(f: Basins -> Basins, P: Basins -> bool, b: Basins, m: nat, n: nat)
    requires m <= n && P(Power(f, b, m))
    requires forall x :: P(x) ==> P(f(x))
    ensures P(Power(f, b, n))
    decreases n - m
  {
    if m < n {
      PowerKeeps(f, P, b, m, n - 1);
    }
  }

  /** Every state reached from the start keeps the invariant. */
  lemma IterateKeepsInv(plane: seq<seq<Complex>>, step: Complex -> Complex, tol: real, n: nat)
    ensures Inv(Iterate(Initial(plane), step, tol, n), tol)
  {
    var P := (x: Basins) => Inv(x, tol);
    forall x | P(x) ensures P(RoundBy(step, tol)(x)) {
      RoundKeepsInv(x, step, tol);
    }
    PowerKeeps(RoundBy(step, tol), P, Initial(plane), 0, n);
  }

  /** The roots of an earlier round are a prefix of the roots of a later one. */
  lemma IterateRootsGrow(b: Basins, step: Complex -> Complex, tol: real, m: nat, n: nat)
    requires m <= n
    ensures Iterate(b, step, tol, m).roots <= Iterate(b, step, tol, n).roots
  {
    var rm := Iterate(b, step, tol, m).roots;
    var P := (x: Basins) => rm <= x.roots;
    forall x | P(x) ensures P(RoundBy(step, tol)(x)) {
      RoundRootsGrow(x, step, tol);
      PrefixTransitive(rm, x.roots, Round(x, step, tol).roots);
    }
    PowerKeeps(RoundBy(step, tol), P, b, m, n);
  }

  /** A point that has been labelled stays labelled. */
  lemma IterateLabelsPersist(b: Basins, step: Complex -> Complex, tol: real, m: nat, n: nat, r: nat, c: nat)
    requires m <= n && Labelled(Iterate(b, step, tol, m), r, c)
    ensures Labelled(Iterate(b, step, tol, n), r, c)
  {
    var P := (x: Basins) => Labelled(x, r, c);
    forall x | P(x) ensures P(RoundBy(step, tol)(x)) {
      RoundKeepsLabels(x, step, tol, r, c);
    }
    PowerKeeps(RoundBy(step, tol), P, b, m, n);
  }

  /** No root is known and no point is labelled. */
  predicate NoneFound(b: Basins)
  {
    b.roots == [] && forall r, c :: 0 <= r < |b.px| && 0 <= c < |b.px[r]| ==> b.px[r][c].basin == 0
  }

  /** With tol <= 0 a round finds nothing. */
  lemma RoundNonPositive(b: Basins, step: Complex -> Complex, tol: real)
    requires tol <= 0.0 && NoneFound(b)
    ensures NoneFound(Round(b, step, tol))
  {
    var cur := AdvanceGrid(b.px, step, b.roots, tol);
    NoCandidates(b.px, cur, step, tol, |b.px|);
  }

  /** With tol <= 0 nothing is ever within tol: no root is found and no
      point is labelled. */
  lemma NonPositiveTolerance(plane: seq<seq<Complex>>, step: Complex -> Complex, tol: real, n: nat)
    requires tol <= 0.0
    ensures NoneFound(Iterate(Initial(plane), step, tol, n))
  {
    forall x | NoneFound(x) ensures NoneFound(RoundBy(step, tol)(x)) {
      RoundNonPositive(x, step, tol);
    }
    PowerKeeps(RoundBy(step, tol), NoneFound, Initial(plane), 0, n);
  }

  lemma {:induction false} NoCandidates(prev: seq<seq<Pixel>>, cur: seq<seq<Pixel>>, step: Complex -> Complex, tol: real, r: nat)
    requires tol <= 0.0
    requires r <= |prev| && r <= |cur|
    requires forall i :: 0 <= i < r ==> |prev[i]| == |cur[i]|
    ensures GridCands(prev, cur, step, tol, r) == []
  {
    if r > 0 {
      NoCandidates(prev, cur, step, tol, r - 1);
      NoRowCandidates(prev[r - 1], cur[r - 1], step, tol, |cur[r - 1]|);
    }
  }

  lemma {:induction false} NoRowCandidates(prev: seq<Pixel>, cur: seq<Pixel>, step: Complex -> Complex, tol: real, c: nat)
    requires tol <= 0.0
    requires c <= |prev| && c <= |cur|
    ensures RowCands(prev, cur, step, tol, c) == []
  {
    if c > 0 {
      NoRowCandidates(prev, cur, step, tol, c - 1);
    }
  }

  // ---------------------------------------------------------------------
  // The loop over numpy arrays
  // ---------------------------------------------------------------------

  /** The arrays Z and convergence read as a grid of points. */
  ghost function PixelsOf(Z: array2<Complex>, conv: array2<int>): (g: seq<seq<Pixel>>)
    requires Z.Length0 == conv.Length0 && Z.Length1 == conv.Length1
    reads Z, conv
    ensures Shape(g, Z.Length0, Z.Length1)
    ensures forall r, c :: 0 <= r < Z.Length0 && 0 <= c < Z.Length1 ==> g[r][c] == Pixel(Z[r, c], conv[r, c])
  {
    seq(Z.Length0, r requires 0 <= r < Z.Length0 reads Z, conv =>
      seq(Z.Length1, c requires 0 <= c < Z.Length1 reads Z, conv => Pixel(Z[r, c], conv[r, c])))
  }

  /** newton_raphson_basins: the labels left in `convergence` and the roots
      found are those of max(0, max_iter) rounds from the sampled plane. */
  method NewtonRaphsonBasins(xlim: (real, real), ylim: (real, real), resolution: nat, maxIter: int, tol: real,
                             step: Complex -> Complex)
    returns (conv: array2<int>, roots: seq<Complex>)
    ensures fresh(conv) && conv.Length0 == resolution && conv.Length1 == resolution
    ensures var final := Iterate(Initial(Mesh.Window(xlim.0, xlim.1, ylim.0, ylim.1, resolution)), step, tol, Rounds(maxIter));
            roots == final.roots &&
            forall r, c :: 0 <= r < resolution && 0 <= c < resolution ==> conv[r, c] == final.px[r][c].basin
  {
    var plane := Mesh.Window(xlim.0, xlim.1, ylim.0, ylim.1, resolution);
    var h, w := resolution, resolution;
    var Z := new Complex[h, w]((r, c) requires 0 <= r < h && 0 <= c < w => plane[r][c]);
    conv := new int[h, w]((_, _) => 0);
    roots := [];
    GridExt(PixelsOf(Z, conv), Initial(plane).px, h, w);
    for i := 0 to Rounds(maxIter)
      invariant Basins(PixelsOf(Z, conv), roots) == Iterate(Initial(plane), step, tol, i)
    {
      roots := NewtonRound(Z, conv, roots, tol, step);
    }
  }

  /** One pass of the round loop over the arrays. */
  method NewtonRound(Z: array2<Complex>, conv: array2<int>, roots: seq<Complex>, tol: real, step: Complex -> Complex)
    returns (roots': seq<Complex>)
    requires Z.Length0 == conv.Length0 && Z.Length1 == conv.Length1
    modifies Z, conv
    ensures Basins(PixelsOf(Z, conv), roots') == Round(Basins(old(PixelsOf(Z, conv)), roots), step, tol)
  {
    var h, w := Z.Length0, Z.Length1;
    ghost var prev: seq<seq<Pixel>> := PixelsOf(Z, conv);
    var near := StepAll(Z, tol, step);
    PinAll(Z, conv, roots, tol);
    GridExt(PixelsOf(Z, conv), AdvanceGrid(prev, step, roots, tol), h, w);
    var cands := CollectCandidates(Z, conv, near, prev, step, tol);
    roots' := RegisterAll(roots, cands, tol);
  }

  /** Every point takes one Newton step; near records whether the step moved
      it by less than tol. */
  method StepAll(Z: array2<Complex>, tol: real, step: Complex -> Complex) returns (near: array2<bool>)
    modifies Z
    ensures fresh(near) && near.Length0 == Z.Length0 && near.Length1 == Z.Length1
    ensures forall r, c :: 0 <= r < Z.Length0 && 0 <= c < Z.Length1 ==>
              Z[r, c] == step(old(Z[r, c])) && near[r, c] == Within(step(old(Z[r, c])), old(Z[r, c]), tol)
  {
    near := new bool[Z.Length0, Z.Length1]((_, _) => false);
    for r := 0 to Z.Length0
      invariant forall r', c :: 0 <= r' < Z.Length0 && 0 <= c < Z.Length1 ==>
                  if r' < r then Z[r', c] == step(old(Z[r', c])) && near[r', c] == Within(step(old(Z[r', c])), old(Z[r', c]), tol)
                  else Z[r', c] == old(Z[r', c])
    {
      StepRow(Z, near, r, tol, step);
    }
  }

  method StepRow(Z: array2<Complex>, near: array2<bool>, r: nat, tol: real, step: Complex -> Complex)
    requires r < Z.Length0 && near.Length0 == Z.Length0 && near.Length1 == Z.Length1
    modifies Z, near
    ensures forall r', c :: 0 <= r' < Z.Length0 && 0 <= c < Z.Length1 ==>
              if r' == r then Z[r', c] == step(old(Z[r', c])) && near[r', c] == Within(step(old(Z[r', c])), old(Z[r', c]), tol)
              else Z[r', c] == old(Z[r', c]) && near[r', c] == old(near[r', c])
  {
    for c := 0 to Z.Length1
      invariant forall r', c' :: 0 <= r' < Z.Length0 && 0 <= c' < Z.Length1 ==>
                  if r' == r && c' < c then Z[r', c'] == step(old(Z[r', c'])) && near[r', c'] == Within(step(old(Z[r', c'])), old(Z[r', c']), tol)
                  else Z[r', c'] == old(Z[r', c']) && near[r', c'] == old(near[r', c'])
    {
      var z := Z[r, c];
      var z' := step(z);
      near[r, c] := Within(z', z, tol);
      Z[r, c] := z';
    }
  }

  /** The snapping loop over the known roots, in order. */
  method PinAll(Z: array2<Complex>, conv: array2<int>, roots: seq<Complex>, tol: real)
    requires Z.Length0 == conv.Length0 && Z.Length1 == conv.Length1
    modifies Z, conv
    ensures forall r, c :: 0 <= r < Z.Length0 && 0 <= c < Z.Length1 ==>
              Pixel(Z[r, c], conv[r, c]) == Classify(Pixel(old(Z[r, c]), old(conv[r, c])), roots, tol, |roots|)
  {
    for k := 0 to |roots|
      invariant forall r, c :: 0 <= r < Z.Length0 && 0 <= c < Z.Length1 ==>
                  Pixel(Z[r, c], conv[r, c]) == Classify(Pixel(old(Z[r, c]), old(conv[r, c])), roots, tol, k)
    {
      PinToRoot(Z, conv, roots[k], k + 1, tol);
    }
  }

  /** Snapping onto one root: every point within tol of it is moved onto it
      and labelled idx; the other points are left alone. */
  method PinToRoot(Z: array2<Complex>, conv: array2<int>, root: Complex, idx: int, tol: real)
    requires Z.Length0 == conv.Length0 && Z.Length1 == conv.Length1
    modifies Z, conv
    ensures forall r, c :: 0 <= r < Z.Length0 && 0 <= c < Z.Length1 ==>
              Pixel(Z[r, c], conv[r, c]) == (if Within(old(Z[r, c]), root, tol) then Pixel(root, idx) else Pixel(old(Z[r, c]), old(conv[r, c])))
  {
    for r := 0 to Z.Length0
      invariant forall r', c :: 0 <= r' < Z.Length0 && 0 <= c < Z.Length1 ==>
                  Pixel(Z[r', c], conv[r', c]) ==
                  (if r' < r && Within(old(Z[r', c]), root, tol) then Pixel(root, idx) else Pixel(old(Z[r', c]), old(conv[r', c])))
    {
      PinRow(Z, conv, r, root, idx, tol);
    }
  }

  method PinRow(Z: array2<Complex>, conv: array2<int>, r: nat, root: Complex, idx: int, tol: real)
    requires r < Z.Length0 && Z.Length0 == conv.Length0 && Z.Length1 == conv.Length1
    modifies Z, conv
    ensures forall r', c :: 0 <= r' < Z.Length0 && 0 <= c < Z.Length1 ==>
              Pixel(Z[r', c], conv[r', c]) ==
              (if r' == r && Within(old(Z[r', c]), root, tol) then Pixel(root, idx) else Pixel(old(Z[r', c]), old(conv[r', c])))
  {
    for c := 0 to Z.Length1
      invariant forall r', c' :: 0 <= r' < Z.Length0 && 0 <= c' < Z.Length1 ==>
                  Pixel(Z[r', c'], conv[r', c']) ==
                  (if r' == r && c' < c && Within(old(Z[r', c']), root, tol) then Pixel(root, idx) else Pixel(old(Z[r', c']), old(conv[r', c'])))
    {
      if Within(Z[r, c], root, tol) {
        conv[r, c] := idx;
        Z[r, c] := root;
      }
    }
  }

  /** The values of the candidate cells, in row-major order. */
  method CollectCandidates(Z: array2<Complex>, conv: array2<int>, near: array2<bool>, ghost prev: seq<seq<Pixel>>,
                           step: Complex -> Complex, tol: real)
    returns (cands: seq<Complex>)
    requires Z.Length0 == conv.Length0 == near.Length0 && Z.Length1 == conv.Length1 == near.Length1
    requires Shape(prev, Z.Length0, Z.Length1)
    requires forall r, c :: 0 <= r < Z.Length0 && 0 <= c < Z.Length1 ==>
               near[r, c] == Within(step(prev[r][c].z), prev[r][c].z, tol)
    ensures cands == GridCands(prev, PixelsOf(Z, conv), step, tol, Z.Length0)
  {
    ghost var cur := PixelsOf(Z, conv);
    cands := [];
    for r := 0 to Z.Length0
      invariant cands == GridCands(prev, cur, step, tol, r)
    {
      var row := CollectRow(Z, conv, near, prev, step, tol, r);
      cands := cands + row;
    }
  }

  method CollectRow(Z: array2<Complex>, conv: array2<int>, near: array2<bool>, ghost prev: seq<seq<Pixel>>,
                    step: Complex -> Complex, tol: real, r: nat)
    returns (cands: seq<Complex>)
    requires Z.Length0 == conv.Length0 == near.Length0 && Z.Length1 == conv.Length1 == near.Length1
    requires Shape(prev, Z.Length0, Z.Length1) && r < Z.Length0
    requires forall c :: 0 <= c < Z.Length1 ==> near[r, c] == Within(step(prev[r][c].z), prev[r][c].z, tol)
    ensures cands == RowCands(prev[r], PixelsOf(Z, conv)[r], step, tol, Z.Length1)
  {
    ghost var cur := PixelsOf(Z, conv)[r];
    cands := [];
    for c := 0 to Z.Length1
      invariant cands == RowCands(prev[r], cur, step, tol, c)
    {
      if near[r, c] && conv[r, c] == 0 {
        cands := cands + [Z[r, c]];
      }
    }
  }

  /** Whether x is farther than tol from every root, stopping at the
      first root that is not far. */
  method IsFarFromAll(x: Complex, roots: seq<Complex>, tol: real) returns (b: bool)
    ensures b <==> AllFar(x, roots, tol)
  {
    var k := 0;
    while k < |roots|
      invariant 0 <= k <= |roots|
      invariant forall i :: 0 <= i < k ==> Far(x, roots[i], tol)
    {
      if !Far(x, roots[k], tol) {
        return false;
      }
      k := k + 1;
    }
    return true;
  }

  /** The registration loop: appends every candidate
      far from the roots known at its turn. */
  method RegisterAll(roots: seq<Complex>, cands: seq<Complex>, tol: real) returns (r: seq<Complex>)
    ensures r == Register(roots, cands, tol)
  {
    r := roots;
    for k := 0 to |cands|
      invariant r == Register(roots, cands[..k], tol)
    {
      assert cands[..k + 1][..k] == cands[..k];
      var far := IsFarFromAll(cands[k], r, tol);
      if far {
        r := r + [cands[k]];
      }
    }
    assert cands[..|cands|] == cands;
  }

  // ---------------------------------------------------------------------
  // The Newton map of z^3 - 1
  // ---------------------------------------------------------------------

  function Cube(z: Complex): Complex
  {
    Mul(Square(z), z)
  }

  /** func(z) = z^3 - 1 */
  function F(z: Complex): Complex
  {
    Sub(Cube(z), One)
  }

  /** derivative(z) = 3 z^2 */
  function Derivative(z: Complex): Complex
  {
    Mul(Complex(3.0, 0.0), Square(z))
  }

  /** z - func(z) / derivative(z), where the derivative does not vanish. */
  function CubicStep(z: Complex): Complex
    requires AbsSq(Derivative(z)) != 0.0
  {
    Sub(z, Div(F(z), Derivative(z)))
  }

  /** The Newton map fixes exactly the cube roots of unity: a point the map
      does not move is a root of z^3 - 1, and a root is not moved. */
  lemma CubicFixedPoints(z: Complex)
    requires AbsSq(Derivative(z)) != 0.0
    ensures CubicStep(z) == z <==> Cube(z) == One
  {
    SubSelf(z, Div(F(z), Derivative(z)));
    DivZero(F(z), Derivative(z));
  }
}
