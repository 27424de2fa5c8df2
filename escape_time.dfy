/** The escape-time images of sets.py: julia_set and mandelbrot_set. Both run
    the same masked loop: in round i every point still inside the disk
    |z| <= 2 records i in the image and moves to z^2 + p, while the points
    outside the disk stay frozen. The Julia set starts from the sampled plane
    with the fixed parameter c; the Mandelbrot set starts from zero with the
    sampled plane as parameter. */
module EscapeTime {
  import opened Raster
  import opened ComplexPlane
  import Mesh

  /** |z| <= 2, compared through |z|^2 <= 4 (both sides are non-negative). */
  predicate Bounded(z: Complex)
  {
    AbsSq(z) <= 4.0
  }

  /** One pixel: its current value of Z and its current value in img. */
  datatype Orbit = Orbit(z: Complex, last: int)

  /** Round i of the loop, for one pixel with parameter p. */
  function Step(o: Orbit, p: Complex, i: int): (o': Orbit)
    ensures Bounded(o.z) ==> o' == Orbit(Add(Square(o.z), p), i)
    ensures !Bounded(o.z) ==> o' == o
  {
    if Bounded(o.z) then Orbit(Add(Square(o.z), p), i) else o
  }

  /** The pixel after the first n rounds, starting from z0 with img = 0. */
  function Run(z0: Complex, p: Complex, n: nat): Orbit
  {
    if n == 0 then Orbit(z0, 0) else Step(Run(z0, p, n - 1), p, n - 1)
  }

  /** The first of the rounds 0 .. n-1 that finds the pixel outside the
      disk, or n when every round finds it inside. */
  function EscapeRound(z0: Complex, p: Complex, n: nat): (e: nat)
    ensures e <= n
    ensures forall i :: 0 <= i < e ==> Bounded(Run(z0, p, i).z)
    ensures e < n ==> !Bounded(Run(z0, p, e).z)
  {
    if n == 0 then 0
    else
      var e := EscapeRound(z0, p, n - 1);
      if e < n - 1 then e
      else if Bounded(Run(z0, p, n - 1).z) then n
      else n - 1
  }

  /** Once outside the disk, a pixel never changes again. */
  lemma {:induction false} EscapedIsFrozen(z0: Complex, p: Complex, k: nat, n: nat)
    requires k <= n && !Bounded(Run(z0, p, k).z)
    ensures Run(z0, p, n) == Run(z0, p, k)
    decreases n - k
  {
    if n > k {
      EscapedIsFrozen(z0, p, k, n - 1);
    }
  }

  /** The image value is the last round that found the pixel inside the
      disk, i.e. one less than the escape round, and 0 when the starting
      point is already outside. */
  lemma {:induction false} LastIsRoundBeforeEscape(z0: Complex, p: Complex, n: nat)
    ensures var e := EscapeRound(z0, p, n);
            Run(z0, p, n).last == (if e == 0 then 0 else e - 1)
  {
    if n > 0 {
      var e := EscapeRound(z0, p, n);
      var e' := EscapeRound(z0, p, n - 1);
      LastIsRoundBeforeEscape(z0, p, n - 1);
      if e' < n - 1 {
        EscapedIsFrozen(z0, p, e', n);
        EscapedIsFrozen(z0, p, e', n - 1);
      }
    }
  }

  /** The image value of a pixel lies in 0 .. n-1 (0 when there are no rounds). */
  lemma LastInRange(z0: Complex, p: Complex, n: nat)
    ensures 0 <= Run(z0, p, n).last
    ensures n > 0 ==> Run(z0, p, n).last <= n - 1
    ensures n == 0 ==> Run(z0, p, n).last == 0
  {
    LastIsRoundBeforeEscape(z0, p, n);
  }

  /** A pixel that never leaves the disk in n > 0 rounds is shown as n - 1. */
  lemma NeverEscapes(z0: Complex, p: Complex, n: nat)
    requires n > 0
    requires forall i :: 0 <= i < n ==> Bounded(Run(z0, p, i).z)
    ensures Run(z0, p, n).last == n - 1
  {
    LastIsRoundBeforeEscape(z0, p, n);
  }

  /** A starting point outside the disk is never updated and is shown as 0. */
  lemma StartOutside(z0: Complex, p: Complex, n: nat)
    requires !Bounded(z0)
    ensures Run(z0, p, n) == Orbit(z0, 0)
  {
    EscapedIsFrozen(z0, p, 0, n);
  }

  /** More rounds never lower a pixel's value (the right arrow key only
      shows more detail). */
  lemma {:induction false} MoreRoundsNeverLower(z0: Complex, p: Complex, m: nat, n: nat)
    requires m <= n
    ensures Run(z0, p, m).last <= Run(z0, p, n).last
    decreases n - m
  {
    if m < n {
      MoreRoundsNeverLower(z0, p, m, n - 1);
      LastInRange(z0, p, n - 1);
    }
  }

  /** The Mandelbrot orbit of c = 0 stays at 0: the origin is in the set. */
  lemma {:induction false} OriginOrbit(n: nat)
    ensures Run(Zero, Zero, n).z == Zero
    ensures n > 0 ==> Run(Zero, Zero, n).last == n - 1
  {
    if n > 0 {
      OriginOrbit(n - 1);
    }
  }

  /** Shapes of the image arrays against the grids they are computed from. */
  predicate SameShape(g: seq<seq<Complex>>, h: seq<seq<Complex>>)
  {
    IsRect(g) && IsRect(h) && |g| == |h| && Width(g) == Width(h)
  }

  /** The shared loop: img[r, c] is Run(Z0[r][c], P[r][c], rounds).last for
      rounds = max(0, maxIter). */
  method EscapeImage(Z0: seq<seq<Complex>>, P: seq<seq<Complex>>, maxIter: int) returns (img: array2<int>)
    requires SameShape(Z0, P)
    ensures fresh(img) && img.Length0 == |Z0| && img.Length1 == Width(Z0)
    ensures forall r, c :: 0 <= r < img.Length0 && 0 <= c < img.Length1 ==>
              img[r, c] == Run(Z0[r][c], P[r][c], Rounds(maxIter)).last
  {
    var h, w := |Z0|, Width(Z0);
    var Z := new Complex[h, w]((r, c) requires 0 <= r < h && 0 <= c < w => Z0[r][c]);
    img := new int[h, w]((_, _) => 0);
    for i := 0 to Rounds(maxIter)
      invariant forall r, c :: 0 <= r < h && 0 <= c < w ==>
                  Orbit(Z[r, c], img[r, c]) == Run(Z0[r][c], P[r][c], i)
    {
      EscapeRoundAll(Z, img, P, i);
    }
  }

  /** One round: every pixel takes its Step. */
  method EscapeRoundAll(Z: array2<Complex>, img: array2<int>, P: seq<seq<Complex>>, i: int)
    requires IsRect(P) && |P| == Z.Length0 == img.Length0 && Z.Length1 == img.Length1
    requires |P| > 0 ==> Width(P) == Z.Length1
    modifies Z, img
    ensures forall r, c :: 0 <= r < Z.Length0 && 0 <= c < Z.Length1 ==>
              Orbit(Z[r, c], img[r, c]) == Step(Orbit(old(Z[r, c]), old(img[r, c])), P[r][c], i)
  {
    for r := 0 to Z.Length0
      invariant forall r', c :: 0 <= r' < Z.Length0 && 0 <= c < Z.Length1 ==>
                  Orbit(Z[r', c], img[r', c]) ==
                  (if r' < r then Step(Orbit(old(Z[r', c]), old(img[r', c])), P[r'][c], i)
                   else Orbit(old(Z[r', c]), old(img[r', c])))
    {
      EscapeRoundRow(Z, img, P[r], r, i);
    }
  }

  /** One round on row r. */
  method EscapeRoundRow(Z: array2<Complex>, img: array2<int>, row: seq<Complex>, r: nat, i: int)
    requires r < Z.Length0 == img.Length0 && |row| == Z.Length1 == img.Length1
    modifies Z, img
    ensures forall r', c :: 0 <= r' < Z.Length0 && 0 <= c < Z.Length1 ==>
              Orbit(Z[r', c], img[r', c]) ==
              (if r' == r then Step(Orbit(old(Z[r', c]), old(img[r', c])), row[c], i)
               else Orbit(old(Z[r', c]), old(img[r', c])))
  {
    for c := 0 to Z.Length1
      invariant forall r', c' :: 0 <= r' < Z.Length0 && 0 <= c' < Z.Length1 ==>
                  Orbit(Z[r', c'], img[r', c']) ==
                  (if r' == r && c' < c then Step(Orbit(old(Z[r', c']), old(img[r', c'])), row[c'], i)
                   else Orbit(old(Z[r', c']), old(img[r', c'])))
    {
      if Bounded(Z[r, c]) {
        img[r, c] := i;
        Z[r, c] := Add(Square(Z[r, c]), row[c]);
      }
    }
  }

  /** img is the julia_set image of c over the window xlim x ylim. */
  ghost predicate JuliaImage(img: array2<int>, c: Complex, xlim: (real, real), ylim: (real, real), resolution: nat, maxIter: int)
    reads img
  {
    img.Length0 == resolution && img.Length1 == resolution &&
    forall r, k :: 0 <= r < resolution && 0 <= k < resolution ==>
      img[r, k] == Run(Mesh.Window(xlim.0, xlim.1, ylim.0, ylim.1, resolution)[r][k], c, Rounds(maxIter)).last
  }

  /** img is the mandelbrot_set image over the window xlim x ylim. */
  ghost predicate MandelbrotImage(img: array2<int>, xlim: (real, real), ylim: (real, real), resolution: nat, maxIter: int)
    reads img
  {
    img.Length0 == resolution && img.Length1 == resolution &&
    forall r, k :: 0 <= r < resolution && 0 <= k < resolution ==>
      img[r, k] == Run(Zero, Mesh.Window(xlim.0, xlim.1, ylim.0, ylim.1, resolution)[r][k], Rounds(maxIter)).last
  }

  /** julia_set(c, xlim, ylim, resolution, max_iter). */
  method JuliaSet(c: Complex, xlim: (real, real), ylim: (real, real), resolution: nat, maxIter: int)
    returns (img: array2<int>)
    ensures fresh(img) && JuliaImage(img, c, xlim, ylim, resolution, maxIter)
  {
    var plane := Mesh.Window(xlim.0, xlim.1, ylim.0, ylim.1, resolution);
    var params := Mesh.Filled(resolution, resolution, c);
    img := EscapeImage(plane, params, maxIter);
  }

  /** mandelbrot_set(xlim, ylim, resolution, max_iter). */
  method MandelbrotSet(xlim: (real, real), ylim: (real, real), resolution: nat, maxIter: int)
    returns (img: array2<int>)
    ensures fresh(img) && MandelbrotImage(img, xlim, ylim, resolution, maxIter)
  {
    var plane := Mesh.Window(xlim.0, xlim.1, ylim.0, ylim.1, resolution);
    var zeros := Mesh.Filled(resolution, resolution, Zero);
    img := EscapeImage(zeros, plane, maxIter);
  }
}
