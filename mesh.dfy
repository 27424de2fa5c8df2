/** The sample grid shared by the escape-time sets and the Newton basins:
    `np.linspace` along each axis and `np.meshgrid` turned into the complex
    plane `X + 1j * Y`, row r holding the r-th y and column c the c-th x. */
module Mesh {
  import opened Raster
  import opened ComplexPlane

  /** np.linspace(lo, hi, n) with endpoint=True: n evenly spaced samples,
      the last one set to hi exactly, a single sample lo when n == 1. */
  function Linspace(lo: real, hi: real, n: nat): (xs: seq<real>)
    ensures |xs| == n
    ensures n >= 1 ==> xs[0] == lo
    ensures n >= 2 ==> xs[n - 1] == hi
  {
    if n <= 1 then seq(n, k => lo)
    else
      var step := (hi - lo) / ((n - 1) as real);
      seq(n, k requires 0 <= k < n => if k == n - 1 then hi else lo + (k as real) * step)
  }

  /** Consecutive samples are (hi - lo) / (n - 1) apart, including the last
      pair, whose upper end is pinned to hi. */
  lemma LinspaceEvenlySpaced(lo: real, hi: real, n: nat, k: nat)
    requires n >= 2 && k + 1 < n
    ensures Linspace(lo, hi, n)[k + 1] - Linspace(lo, hi, n)[k] == (hi - lo) / ((n - 1) as real)
  {
    var step := (hi - lo) / ((n - 1) as real);
    var xs := Linspace(lo, hi, n);
    assert xs[k] == lo + (k as real) * step;
    if k + 1 == n - 1 {
      assert ((n - 1) as real) * step == hi - lo;
      assert (k as real) * step + step == ((k + 1) as real) * step;
    } else {
      assert xs[k + 1] == lo + ((k + 1) as real) * step;
      assert ((k + 1) as real) * step == (k as real) * step + step;
    }
  }

  /** X + 1j * Y of np.meshgrid(xs, ys). */
  function Plane(xs: seq<real>, ys: seq<real>): (z: seq<seq<Complex>>)
    ensures |z| == |ys| && IsRect(z) && (|ys| > 0 ==> Width(z) == |xs|)
    ensures forall r, c :: 0 <= r < |ys| && 0 <= c < |xs| ==> z[r][c] == Complex(xs[c], ys[r])
  {
    seq(|ys|, r requires 0 <= r < |ys| => seq(|xs|, c requires 0 <= c < |xs| => Complex(xs[c], ys[r])))
  }

  /** A grid of the given shape holding v everywhere (a broadcast scalar, or np.zeros). */
  function Filled(rows: nat, cols: nat, v: Complex): (z: seq<seq<Complex>>)
    ensures |z| == rows && IsRect(z) && (rows > 0 ==> Width(z) == cols)
    ensures forall r, c :: 0 <= r < rows && 0 <= c < cols ==> z[r][c] == v
  {
    seq(rows, r => seq(cols, c => v))
  }

  /** The sampled plane of an axis-aligned window at the given resolution. */
  function Window(xlo: real, xhi: real, ylo: real, yhi: real, resolution: nat): (z: seq<seq<Complex>>)
    ensures |z| == resolution && IsRect(z) && Width(z) == resolution
  {
    Plane(Linspace(xlo, xhi, resolution), Linspace(ylo, yhi, resolution))
  }
}
