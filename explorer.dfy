/** The interactive explorer of sets.py: a viewing window xlim x ylim and an
    iteration budget, changed by the arrow keys (on_key) and redrawn after
    every key (update_plot, minus the drawing). */
module Explorer {
  import opened ComplexPlane
  import EscapeTime

  /** A closed axis range [lo, hi], as the two-element lists xlim and ylim. */
  datatype Interval = Interval(lo: real, hi: real)

  const ZoomFactor: real := 1.5
  const IterStep: int := 50
  const MinIter: int := 50

  function Center(v: Interval): real
  {
    (v.lo + v.hi) / 2.0
  }

  function Extent(v: Interval): real
  {
    v.hi - v.lo
  }

  /** The 'up' key: the same centre, ZoomFactor times narrower. */
  function ZoomIn(v: Interval): (r: Interval)
    ensures Center(r) == Center(v)
    ensures Extent(r) * ZoomFactor == Extent(v)
  {
    var w := Extent(v);
    Interval(Center(v) - w / (2.0 * ZoomFactor), Center(v) + w / (2.0 * ZoomFactor))
  }

  /** The 'down' key: the same centre, ZoomFactor times wider. */
  function ZoomOut(v: Interval): (r: Interval)
    ensures Center(r) == Center(v)
    ensures Extent(r) == Extent(v) * ZoomFactor
  {
    var w := Extent(v);
    Interval(Center(v) - w * ZoomFactor / 2.0, Center(v) + w * ZoomFactor / 2.0)
  }

  /** An interval is determined by its centre and its extent. */
  lemma CenterExtentDetermine(u: Interval, v: Interval)
    requires Center(u) == Center(v) && Extent(u) == Extent(v)
    ensures u == v
  {
  }

  /** Zooming out undoes zooming in, and the other way round. */
  lemma ZoomRoundTrip(v: Interval)
    ensures ZoomOut(ZoomIn(v)) == v
    ensures ZoomIn(ZoomOut(v)) == v
  {
    CenterExtentDetermine(ZoomOut(ZoomIn(v)), v);
    CenterExtentDetermine(ZoomIn(ZoomOut(v)), v);
  }

  /** For a well-oriented range, zooming in stays inside it and zooming out
      contains it. */
  lemma ZoomNesting(v: Interval)
    requires v.lo <= v.hi
    ensures v.lo <= ZoomIn(v).lo <= ZoomIn(v).hi <= v.hi
    ensures ZoomOut(v).lo <= v.lo <= v.hi <= ZoomOut(v).hi
  {
  }

  /** The 'left' key: fifty fewer iterations, but never below fifty. */
  function FewerIterations(m: int): (r: int)
    ensures r >= MinIter
    ensures r == m - IterStep || (r == MinIter && m - IterStep < MinIter)
  {
    if m - IterStep >= MinIter then m - IterStep else MinIter
  }

  /** 'right' then 'left' restores any budget of at least fifty. */
  lemma MoreThenFewer(m: int)
    requires m >= MinIter
    ensures FewerIterations(m + IterStep) == m
  {
  }

  /** The state of the explorer between key presses. */
  class View {
    var xlim: Interval
    var ylim: Interval
    var maxIter: int
    const resolution: nat
    const c: Complex

    /** The budget never drops below fifty and moves in steps of fifty from 300. */
    ghost predicate Valid()
      reads this
    {
      maxIter >= MinIter && maxIter % IterStep == 0
    }

    /** The initial parameters of sets.py. */
    constructor ()
      ensures xlim == Interval(-2.0, 2.0) && ylim == Interval(-2.0, 2.0)
      ensures maxIter == 300 && resolution == 500 && c == Complex(-0.8, 0.156)
      ensures Valid()
    {
      xlim := Interval(-2.0, 2.0);
      ylim := Interval(-2.0, 2.0);
      maxIter := 300;
      resolution := 500;
      c := Complex(-0.8, 0.156);
    }

    /** update_plot without the drawing: both images for the current state. */
    method Render() returns (julia: array2<int>, mandelbrot: array2<int>)
      ensures fresh(julia) && fresh(mandelbrot)
      ensures EscapeTime.JuliaImage(julia, c, (xlim.lo, xlim.hi), (ylim.lo, ylim.hi), resolution, maxIter)
      ensures EscapeTime.MandelbrotImage(mandelbrot, (xlim.lo, xlim.hi), (ylim.lo, ylim.hi), resolution, maxIter)
    {
      julia := EscapeTime.JuliaSet(c, (xlim.lo, xlim.hi), (ylim.lo, ylim.hi), resolution, maxIter);
      mandelbrot := EscapeTime.MandelbrotSet((xlim.lo, xlim.hi), (ylim.lo, ylim.hi), resolution, maxIter);
    }

    /** on_key: update the window or the budget for one key, then redraw.
        Any other key only redraws. */
    method OnKey(key: string) returns (julia: array2<int>, mandelbrot: array2<int>)
      requires Valid()
      modifies this
      ensures Valid()
      ensures key == "up" ==> xlim == ZoomIn(old(xlim)) && ylim == ZoomIn(old(ylim)) && maxIter == old(maxIter)
      ensures key == "down" ==> xlim == ZoomOut(old(xlim)) && ylim == ZoomOut(old(ylim)) && maxIter == old(maxIter)
      ensures key == "right" ==> xlim == old(xlim) && ylim == old(ylim) && maxIter == old(maxIter) + IterStep
      ensures key == "left" ==> xlim == old(xlim) && ylim == old(ylim) && maxIter == FewerIterations(old(maxIter))
      ensures key !in {"up", "down", "right", "left"} ==> xlim == old(xlim) && ylim == old(ylim) && maxIter == old(maxIter)
      ensures fresh(julia) && fresh(mandelbrot)
      ensures EscapeTime.JuliaImage(julia, c, (xlim.lo, xlim.hi), (ylim.lo, ylim.hi), resolution, maxIter)
      ensures EscapeTime.MandelbrotImage(mandelbrot, (xlim.lo, xlim.hi), (ylim.lo, ylim.hi), resolution, maxIter)
    {
      if key == "up" {
        xlim, ylim := ZoomIn(xlim), ZoomIn(ylim);
      } else if key == "down" {
        xlim, ylim := ZoomOut(xlim), ZoomOut(ylim);
      } else if key == "right" {
        maxIter := maxIter + IterStep;
      } else if key == "left" {
        maxIter := FewerIterations(maxIter);
      }
      julia, mandelbrot := Render();
    }
  }
}
