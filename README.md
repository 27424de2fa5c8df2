# fractali in Dafny

This project models the numerical core of fractali, a small collection of Python scripts that draw and measure fractals:

- **Box counting over a whole image** (`box-counting.py`). The image is binarised. A ladder of power-of-two box sizes is built. For each size, the model counts the aligned cells that hold a foreground pixel. Cells on the border are partial and are clipped the way numpy clips slices.
- **Local box counting** (`color-map.py`). A square window slides over the image at a stride. Each window is counted at the sizes 2, 4, 8 and 16. The resulting value goes into cell `(i // stride, j // stride)` of a zero-filled map.
- **Escape-time images** (`sets.py`). `julia_set` and `mandelbrot_set` run a masked loop. In round `i`, every point with `|z| <= 2` records `i` and moves to `z^2 + p`. Points outside the disk stay frozen.
- **The interactive explorer** (`sets.py`). The arrow keys change a viewing window and an iteration budget. After every key both images are recomputed.
- **Newton-Raphson basins** (`newton-raphson.py`). In each round, every grid point takes one Newton step. The points within `tol` of a known root are snapped onto it and labelled with its 1-based index. Unlabelled points that moved by less than `tol` then become candidate roots, in row-major order. A candidate is registered when it is farther than `tol` from every root known at its turn.
- **Initiator-generator curves** (`initiator-generator.py`). The Koch snowflake outline and the Sierpinski triangle subdivision.

Numbers are exact reals. Complex numbers are pairs of reals. Magnitudes are compared through their squares:

- `|x| < tol` holds exactly when `tol > 0` and `|x|^2 < tol^2`;
- `|x| > tol` holds exactly when `tol < 0` or `|x|^2 > tol^2`.

These functions of the source become parameters of the model:

- the least-squares regression (`fit`);
- the Newton map (`step`);
- the irrational `np.sqrt(3)` (`sqrt3`).

Code that mutates numpy arrays becomes Dafny methods over `array2`: the `Z`, `img`, `convergence` and `local_fd_map` arrays. Each such method is proved equal to a pure specification function: `Run`, `Iterate` or `Expected`. Separately, the nested loops of `CountOccupied` over the binary image are proved equal to `GridCount`. The properties are then proved about those functions.

Module layout:

- `raster.dfy` (`Raster`): grids, `Result`, and integer helpers;
- `box_counting.dfy` (`BoxCounting`);
- `color_map.dfy` (`ColorMap`);
- `complex.dfy` (`ComplexPlane`);
- `mesh.dfy` (`Mesh`): `linspace` and `meshgrid`;
- `escape_time.dfy` (`EscapeTime`);
- `explorer.dfy` (`Explorer`, with the class `View` for the global state of `sets.py`);
- `newton.dfy` (`NewtonBasins`);
- `curves.dfy` (`Curves`).

Behaviour of the code that the model keeps as written:

- **Escape-time value.** The image holds the last round that found the point inside the disk, because `img[mask] = i` overwrites the value in every round that still finds the point inside. A point that never escapes is shown as `max_iter - 1` (`LastIsRoundBeforeEscape`, `NeverEscapes`).
- **Newton rounds.** Every point is stepped every round, labelled or not. A newly registered root does not label its own point in that round. The label comes in a later round, through snapping.
- **Zero derivative.** The code does not catch a zero derivative. In the model, `CubicStep` requires a non-zero derivative, and the basin computation takes the Newton map as a parameter.
- **Local map size.** The local map is allocated with `(h - bs + 1) x (w - bs + 1)` cells. Only the top-left `ceil(n / stride)` block is written, and the rest stays 0 (`WrittenBlock`, `UnwrittenCellsZero`).
- **Box-counting errors.** `box_counting` checks neither the ladder nor the counts. Bounds whose ladder is empty, such as 8 and 4, give `SizeLadder(8, 4) == Ok([])` (`EmptyLadder`), and `np.polyfit` then raises on the empty samples. A one-size ladder hands `np.polyfit` a single point. The only failure the model records before the regression is a non-positive box size (`SizeLadder`). Zero counts reach `np.log` (`AllBackgroundCountsZero`).

## Model

| member | source | states |
|---|---|---|
| Raster.OriginsIsCeil | box-counting.py:24-25 | `range(0, len, s)` runs exactly ceil(len / s) times |
| BoxCounting.Log2Floor | box-counting.py:20 | `int(log2(n))` of a positive integer is the k with 2^k <= n < 2^(k+1) |
| BoxCounting.SizeLadder | box-counting.py:20 | fails exactly when a bound is below 1; otherwise, with lo = floor(log2 min) and hi = floor(log2 max), the sizes are exactly 2^(lo+k) for k < hi - lo + 1 (none when lo > hi), so every size is at least 1, each size is twice the previous, the ladder is non-empty iff 2^floor(log2 min) <= max, the first size is the largest power of two <= min, and the last size is the largest power of two <= max |
| BoxCounting.LadderIncreasing | box-counting.py:20 | the sizes are strictly increasing |
| BoxCounting.DefaultLadder | box-counting.py:5-20 | the default bounds 2 and 128 give the sizes 2, 4, 8, 16, 32, 64, 128 |
| BoxCounting.EmptyLadder | box-counting.py:20 | bounds 8 and 4 give `range(3, 3)`: the ladder succeeds and is empty |
| BoxCounting.CountOccupied | box-counting.py:23-28 | the nested loops over cell origins return GridCount for that size |
| BoxCounting.BoxCount | box-counting.py:5-30 | fails iff the ladder fails, with its error; otherwise the sizes are the ladder and the counts are those of the binarised image (a pixel is foreground iff its value is positive), size by size |
| BoxCounting.GridCountIsOccupiedOrigins | box-counting.py:24-28 | grid_count equals the number of aligned origins whose clipped cell holds a foreground pixel, so partial edge cells count |
| BoxCounting.GridCountBound | box-counting.py:23-28 | grid_count <= ceil(H/s) * ceil(W/s), with equality for an all-foreground image |
| BoxCounting.AllBackgroundCountsZero | box-counting.py:27-34 | an all-background image gives count 0 at every size, which is the input the logarithm cannot take |
| BoxCounting.GridCountDoubling | box-counting.py:22-28 | the count at size 2s is at most the count at size s |
| BoxCounting.CountsNonIncreasing | box-counting.py:22-30 | along any doubling ladder the counts never increase |
| BoxCounting.LadderCountsNonIncreasing | box-counting.py:15-30 | the counts box_counting hands to the regression never increase |
| ColorMap.BoxCountingFractalDimension | color-map.py:24-48 | the result is the regression applied to the four counts of the patch at sizes 2, 4, 8, 16, in that order |
| ColorMap.FractalDimensionLocal | color-map.py:5-22 | fails exactly on a negative output shape or a zero stride; otherwise returns a fresh (h - bs + 1) x (w - bs + 1) map whose every cell is Expected: the window value at origin (a * stride, b * stride) when that origin is enumerated, else 0 |
| ColorMap.WriteRow | color-map.py:18-20 | one pass of the inner loop writes exactly the enumerated cells of output row i // stride and nothing else |
| ColorMap.WriteCell | color-map.py:19-20 | one window writes its value into cell (i // stride, j // stride) and changes no other cell |
| ColorMap.OriginIndex | color-map.py:20 | the k-th origin k * stride is stored at index k |
| ColorMap.OriginsDistinct | color-map.py:20 | distinct origins map to distinct cells, so no value is overwritten |
| ColorMap.WrittenBlock | color-map.py:17-20 | an output row or column is written iff its index is below ceil(n / stride) |
| ColorMap.UnwrittenCellsZero | color-map.py:15-20 | cells outside the written block keep the initial 0 |
| ColorMap.StrideOneFillsMap | color-map.py:17-20 | with stride 1 every map cell holds the value of its own window |
| ColorMap.PatchCountBound | color-map.py:31-42 | each of the four counts is at most ceil(rows/S) * ceil(cols/S) |
| ColorMap.FullWindowLastCount | color-map.py:31-42 | a 16 x 16 window has count 0 or 1 at size 16 |
| ColorMap.EmptyPatchCounts | color-map.py:34-46 | an all-background patch gives the counts [0, 0, 0, 0] that reach the logarithm |
| Mesh.Linspace | sets.py:7-8 | n samples; the first is lo; when n >= 2 the last is exactly hi |
| Mesh.LinspaceEvenlySpaced | sets.py:7-8 | consecutive samples are (hi - lo) / (n - 1) apart, including the last pair |
| Mesh.Window | sets.py:7-10 | the sampled window has resolution x resolution points |
| EscapeTime.EscapeRound | sets.py:12-15 | the first round, out of n, that finds the point outside the disk: every earlier round finds it inside, and that round (if below n) finds it outside |
| EscapeTime.EscapedIsFrozen | sets.py:13-15 | once outside the disk, a point never changes again |
| EscapeTime.LastIsRoundBeforeEscape | sets.py:12-14 | the image value is the escape round minus one, or 0 when the start is already outside |
| EscapeTime.LastInRange | sets.py:12-14 | the image value lies in 0 .. max_iter - 1, and is 0 with no rounds |
| EscapeTime.NeverEscapes | sets.py:12-14 | a point that stays inside for all n rounds shows n - 1 |
| EscapeTime.StartOutside | sets.py:12-15 | a start outside the disk is never updated and shows 0 |
| EscapeTime.MoreRoundsNeverLower | sets.py:12-14 | more rounds never lower an image value |
| EscapeTime.OriginOrbit | sets.py:24-29 | the Mandelbrot orbit of c = 0 stays at 0 and never escapes |
| EscapeTime.EscapeImage | sets.py:11-15 | returns a fresh image with img[r, c] = Run(Z0[r][c], P[r][c], max(0, max_iter)).last |
| EscapeTime.EscapeRoundAll | sets.py:13-15 | one round applies Step to every pixel of Z and img |
| EscapeTime.EscapeRoundRow | sets.py:13-15 | one round moves each pixel of one row that is still inside the disk to z^2 + p and records the round in its value, leaves escaped pixels unchanged, and leaves the other rows alone |
| EscapeTime.JuliaSet | sets.py:6-16 | the image is the escape-time image of the sampled window (row r, column c is the point xs[c] + i ys[r]), started at each point with parameter c |
| EscapeTime.MandelbrotSet | sets.py:19-30 | the image is the escape-time image started at 0, with the sampled point as parameter |
| Explorer.ZoomIn | sets.py:55-63 | 'up' keeps the centre and makes the range 1.5 times narrower |
| Explorer.ZoomOut | sets.py:55-66 | 'down' keeps the centre and makes the range 1.5 times wider |
| Explorer.ZoomRoundTrip | sets.py:61-66 | zooming out undoes zooming in, and the other way round |
| Explorer.ZoomNesting | sets.py:61-66 | zooming in stays inside an ordered range, and zooming out contains it |
| Explorer.FewerIterations | sets.py:71-72 | 'left' lowers the budget by 50 but never below 50 |
| Explorer.MoreThenFewer | sets.py:69-72 | 'right' then 'left' restores any budget of at least 50 |
| Explorer.View.constructor | sets.py:77-82 | the initial window [-2, 2] x [-2, 2], resolution 500, budget 300 and c = -0.8 + 0.156i |
| Explorer.View.Render | sets.py:33-49 | update_plot without drawing: the Julia and Mandelbrot images of the current state |
| Explorer.View.OnKey | sets.py:52-74 | each of the four arrow keys changes exactly its part of the state; other keys change nothing; the budget stays a multiple of 50, at least 50; both images are redrawn |
| Curves.KochSegment | initiator-generator.py:6-22 | generate_segment returns (5 * 4^order + 1) / 3 points, starting at p1 |
| Curves.KochLengthRecurrence | initiator-generator.py:17-22 | the length follows L(n) = 4 L(n - 1) - 1 |
| Curves.EqualThirds | initiator-generator.py:10-12 | s and t split p1 -> p2 into three equal steps |
| Curves.ApexEquidistant | initiator-generator.py:10-15 | the apex u is equally far from s and t, for any value of sqrt3 |
| Curves.ApexEquilateral | initiator-generator.py:10-15 | with sqrt3^2 = 3 the bump s, u, t is equilateral |
| Curves.KochOrderOne | initiator-generator.py:6-22 | order 1 gives p1, s, s, u, u, t, t: inner points repeat and p2 is dropped |
| Curves.SnowflakePoints | initiator-generator.py:24-25 | the three edges give 5 * 4^order + 1 points, starting at the origin |
| Curves.SnowflakeOrderZero | initiator-generator.py:24-25 | order 0 gives the triangle with each shared corner listed twice |
| Curves.KochSnowflake | initiator-generator.py:5-27 | the x and y coordinate lists are aligned, have 5 * 4^order + 1 entries and start at (0, 0) |
| Curves.Subdivide | initiator-generator.py:30-43 | subdivide returns 3^order triangles; the first starts at vertex a and the last ends at vertex c |
| Curves.CornersAreHalves | initiator-generator.py:34-43 | the three corner triangles are the parent at half size |
| Curves.SubdivideCopies | initiator-generator.py:30-43 | every triangle of subdivide(v, order) is v scaled by 1 / 2^order |
| Curves.SierpinskiTriangle | initiator-generator.py:29-47 | sierpinski_triangle returns 3^order triangles, the first at the origin |
| NewtonBasins.ClassifyLabels | newton-raphson.py:43-46 | after snapping, a point is untouched, or carries a label k in 1..n and sits exactly on root k |
| NewtonBasins.FirstWithin | newton-raphson.py:43-46 | the first root within tol: no earlier root is within tol, and the returned one is |
| NewtonBasins.FirstMatchWins | newton-raphson.py:43-46 | with separated roots the snapping loop leaves the point on the first root within tol, with that root's label |
| NewtonBasins.RegisterExtends | newton-raphson.py:51-54 | registering only appends: the old roots are a prefix, with at most one new root per candidate |
| NewtonBasins.RegisterFromCandidates | newton-raphson.py:49-54 | every new root is one of the candidates |
| NewtonBasins.RegisterSeparated | newton-raphson.py:53-54 | registering keeps the roots pairwise farther than tol apart |
| NewtonBasins.RegisterCovers | newton-raphson.py:51-54 | for tol >= 0 every candidate ends up within tol (non-strictly) of a root |
| NewtonBasins.RowCandsExactly | newton-raphson.py:49-50 | a value is a candidate of a row iff some unlabelled cell that moved by less than tol holds it |
| NewtonBasins.CandidatesExactly | newton-raphson.py:49-50 | a value is a candidate of the grid iff some unlabelled cell that moved by less than tol holds it |
| NewtonBasins.RoundKeepsInv | newton-raphson.py:35-54 | a round keeps the roots separated and every label in 0..number of roots |
| NewtonBasins.RoundPixel | newton-raphson.py:35-46 | one point steps once and is then captured by the first root within tol, or keeps its label |
| NewtonBasins.RoundRootsGrow | newton-raphson.py:51-54 | a round only appends roots |
| NewtonBasins.RoundKeepsLabels | newton-raphson.py:43-46 | a round never clears a label |
| NewtonBasins.RoundNonPositive | newton-raphson.py:40-54 | with tol <= 0 a round finds no root and labels no point |
| NewtonBasins.IterateKeepsInv | newton-raphson.py:31-54 | after any number of rounds from the start, the roots are separated and the labels are valid indices |
| NewtonBasins.IterateRootsGrow | newton-raphson.py:35-54 | the roots after m rounds are a prefix of the roots after n >= m rounds, so root ids never change |
| NewtonBasins.IterateLabelsPersist | newton-raphson.py:35-54 | a labelled point stays labelled in all later rounds |
| NewtonBasins.NonPositiveTolerance | newton-raphson.py:31-54 | with tol <= 0 no root is ever found and every label stays 0 |
| NewtonBasins.NewtonRaphsonBasins | newton-raphson.py:4-56 | the returned convergence array and roots are those of max(0, max_iter) rounds from the sampled window |
| NewtonBasins.NewtonRound | newton-raphson.py:35-54 | one pass of the loop over the arrays is one Round of the specification |
| NewtonBasins.StepAll | newton-raphson.py:36-40 | every point takes one step, and near records whether it moved by less than tol |
| NewtonBasins.StepRow | newton-raphson.py:36-40 | the same for one row, leaving the other rows alone |
| NewtonBasins.PinAll | newton-raphson.py:43-46 | snapping against all roots in order is the Classify fold of each point |
| NewtonBasins.PinToRoot | newton-raphson.py:44-46 | the points within tol of the root take the root and its label, and the others are unchanged |
| NewtonBasins.PinRow | newton-raphson.py:44-46 | the same for one row |
| NewtonBasins.CollectCandidates | newton-raphson.py:49-50 | the collected candidates are GridCands: the unlabelled points that moved by less than tol, in row-major order |
| NewtonBasins.CollectRow | newton-raphson.py:49-50 | the same for one row, in column order |
| NewtonBasins.IsFarFromAll | newton-raphson.py:53 | true iff the candidate is farther than tol from every root |
| NewtonBasins.RegisterAll | newton-raphson.py:51-54 | the registration loop computes Register, testing each candidate against the roots known at its turn |
| NewtonBasins.CubicFixedPoints | newton-raphson.py:18-37 | the Newton map of z^3 - 1 fixes a point iff the point is a cube root of unity |

## Left out

- Image loading, binarisation by gray level, plotting, colour bars, the sliders and `fig.canvas` are I/O or drawing. The scripts' top-level code calls `update_plot` at start-up and wires `on_key` to the canvas; the model keeps only what the calls compute.
- `ifs.py` is not part of this model.
- **The regression.** The least-squares fit (`np.polyfit` on the log-log samples) is floating point. `BoxCount` returns the samples it consumes. `BoxCountingFractalDimension` takes the fit as a parameter `fit`, applied to the counts. Neither the logarithms nor the slope are modelled, so neither is the error `np.polyfit` raises when the ladder is empty: `BoxCount` then returns `Ok` with empty samples.
- **Floating point.** All arithmetic is exact real arithmetic. `linspace` is modelled as `lo + k * step`, with the last sample pinned to `hi`, as numpy does. Rounding, overflow to `inf` and `nan` are not modelled.
- **Newton map.** `step` is a parameter of the basin computation. `NewtonBasins.CubicStep` must have a non-zero derivative, because the source divides by `3 z^2` without a guard. At `z = 0` numpy would produce `inf`/`nan` there.
- **Box-counting bounds.** `BoxCounting.SizeLadder` returns an error for bounds below 1. There `np.log2` gives `-inf` or `nan`, and `int()` either raises or gives a meaningless exponent. Bounds that are not powers of two are modelled as the code treats them: through `int(log2(·))`.
- `BoxCounting.BoxCount` takes the image as a rectangular grid of reals, as a 2D float numpy array always is. Floating-point rounding of the pixel values is not modelled; only the comparison with 0 matters. `ColorMap.FractalDimensionLocal` takes the rectangular binary mask that `fractal_dimension_local` is called with, as a grid of booleans.
- `ColorMap.FractalDimensionLocal`: requires a window size of at least 1. A zero-size window hands empty patches, whose counts are all 0, to the logarithm.
- **Grid sizes.** `resolution` is a `nat` everywhere: `np.linspace` rejects a negative count. A negative `max_iter` is modelled as zero rounds, which is what `range` gives.
- `Curves.KochSegment` and `Curves.Subdivide`: `order` is a `nat`. On a negative order the Python functions never reach `order == 0` and recurse until Python raises `RecursionError`.
- **The irrational `sqrt(3)`.** `np.sqrt(3)` is the parameter `sqrt3`. Only `Curves.ApexEquilateral` needs its value, and it requires `sqrt3 * sqrt3 == 3`.
- **Returned grid.** `newton_raphson_basins` also returns `X` and `Y`. Those are the `Mesh.Plane` coordinates and are not returned by `NewtonBasins.NewtonRaphsonBasins`.
- `NewtonBasins.RegisterCovers`: stated only for `tol >= 0`. With a negative tolerance every pair counts as farther than `tol`, so every candidate is registered.
- **Snapping order.** A point within `tol` of several known roots is snapped onto the first of them (`FirstMatchWins`). Snapping moves `Z` onto that root, and the later roots are farther than `tol` from it.
- `Explorer.View.OnKey` models the key as a string. Matplotlib's event object and the redraw are not modelled.
