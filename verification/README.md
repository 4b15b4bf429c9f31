# Video stabilisation core, modelled in Dafny

This project models the stabilisation core of `stabilizing.py`. It covers:

- **The point sampler** (`initialize_points`): a `(factor-1)²` grid of
  tracking points inside a region of interest.
- **The two translation stabilisers** (`local_stabilizer_video`,
  `global_stabilizer_video`):
  - they track the grid from frame to frame;
  - when at least four points are found, they shift every buffered frame so
    that the centroid of the found points lands on the anchor. The anchor is
    the region's integer centre, or the frame centre plus a fixed bias;
  - otherwise they stall: the frame is buffered, and written with the next
    successful step's shift if there is one.
- **The perspective stabiliser** (`perspective_stabilizer_video`):
  - it asks a robust solver for a homography between the found points;
  - it smooths the history of homographies with an exponential moving
    average;
  - it composes the result onto a running transform, and writes every
    buffered frame with that transform on every pass.
- **The two smoothing filters**: `exponential_moving_average` over 3×3
  matrices and `moving_average_filter` over samples.

Modules:

| module | contents |
|---|---|
| `Wrappers` | `Option` |
| `Video` | opaque `Frame`; batches of frames written with one transform; constant sequences (`Copies`) |
| `Geometry` | regions, points, tracker results, the grid sampler (`Grid`, `InitializePoints`) |
| `Averages` | `Sum`/`Mean` of reals (`np.mean`) |
| `Translation` | the local and global estimates |
| `Matrices` | 3×3 real matrices; normalisation by the bottom-right entry |
| `Smoothing` | the EMA fold and the sliding-window mean, each with the loop that computes it |
| `TranslationStabilizer` | the shared frame-buffer/stall state machine of the local and global loops, as a class |
| `PerspectiveStabilizer` | the perspective loop, as a class |
| `StaticGrid` | the closed form of the estimate for a static scene |

External code becomes parameters:

- **Tracker**: the pyramidal Lucas–Kanade tracker (`cv2.calcOpticalFlowPyrLK`)
  becomes a function parameter `Tracker`. It maps the reference frame, the
  new frame and the points to tracked points and status flags of the same
  length.
- **Solver**: `cv2.findHomography` with RANSAC becomes a function parameter
  `Solver`.
- **Frames**: frames are opaque values. A written frame is recorded together
  with the transform it was warped by.
- **Non-finite matrices**: a zero bottom-right entry before normalisation
  makes numpy produce infinities and NaNs, which then poison every later
  matrix. The model represents that outcome as `None`.

### Behaviour worth knowing

Each item below is something a reader of the loops might expect to work
differently; the model does what the code does:

- **A stall changes the reference.** One might expect a failed tracking
  step to keep the old reference frame, so that the next step tracks across
  the gap. Instead the new frame becomes the reference (`stabilizing.py:94`,
  `:177`), while the points are kept.
- **Stalled frames get a later frame's shift.** One might expect every frame
  to be warped by the shift measured for it. A stalled frame has no shift of
  its own: it waits in the buffer and is written with the estimate of the
  first later step that succeeds (`Outcome`, `origin`).
- **Trailing frames are dropped.** One might expect every frame read to
  reach the output. In the local and global loops, frames buffered after
  the last successful step are never written. `Stabilize` returns them as
  `unwritten`.
- **The perspective loop never stalls.** It writes every buffered frame on
  every pass, with whatever running transform it holds. With a single-frame
  video its loop body never runs, so nothing is written.
- **Small regions do not give an empty grid.** One might expect a region
  too small to sample to yield no points. A region narrower (or
  shorter) than `factor` still yields `(factor-1)²` points, all on its left
  (top) edge (`GridDegenerate`). `factor == 0` raises `ZeroDivisionError`,
  so the model requires `factor != 0`. Any `factor <= 1` gives an empty
  grid.
- **Zero displacement is not the identity.** One might expect a perfectly
  static scene to be left in place. The anchor is the region's
  integer centre `x + w // 2`, not the initial centroid of the grid, which
  is `x + factor*(w // factor)/2`. So a perfectly static scene is shifted
  unless the two agree (`StaticLocalShift`, `StaticShiftZero`). For example,
  a 10×10 region with factor 4 is shifted by (1, 1) (`StaticSceneIsShifted`).
  The global strategy adds its bias on top of that shift.

## Model

| member | source | states |
|---|---|---|
| Geometry.FloorDiv | stabilizing.py:22 | the quotient is Python's floor division: `b*q <= a < b*q + b` for a positive divisor, mirrored for a negative one |
| Geometry.InitializePoints | stabilizing.py:19-26 | the nested loops produce exactly the grid `Grid(roi, factor)`: column `i` outer, row `j` inner, each point `(x + i*(w//factor), y + j*(h//factor))`; empty when `factor <= 1` |
| Geometry.GridAt | stabilizing.py:22-25 | for `factor > 1` the grid has `(factor-1)²` points, and the point for `(i, j)` sits at index `(i-1)*(factor-1) + (j-1)` with coordinates `(x + i*(w//factor), y + j*(h//factor))` |
| Geometry.GridInside | stabilizing.py:22-25 | when `w, h >= factor` every grid point lies strictly inside the region |
| Geometry.GridDegenerate | stabilizing.py:22-25 | when `0 <= w < factor` every point lies on the left edge `x` (likewise `h` and the top edge `y`) |
| Translation.Found | stabilizing.py:67 | the found points are as many as the status flags equal to 1, and each is one of the tracked points |
| Translation.FoundAt | stabilizing.py:67 | the mask keeps every point whose flag is 1, in order: such a point is found at the position that counts the flags equal to 1 before it |
| Translation.FoundFrom | stabilizing.py:67 | the mask keeps nothing else: the m-th point found is the tracked point at a position whose flag is 1 and which is preceded by exactly m such flags |
| Translation.StatusSumCountsFound | stabilizing.py:66 | `status.sum()` of 0/1 flags equals the number of flags equal to 1 |
| Translation.SucceedsIffFourFound | stabilizing.py:66 | a step succeeds exactly when at least four flags are 1, i.e. at least four points were found |
| Translation.EstimateLocal | stabilizing.py:66-74 | an estimate exists exactly when at least four points were found |
| Translation.EstimateGlobal | stabilizing.py:149-157 | an estimate exists exactly when at least four points were found |
| Translation.LocalRecentres | stabilizing.py:67-74 | shifting the found points by the local estimate puts their mean exactly on the region's integer centre |
| Translation.GlobalIsBiasedLocal | stabilizing.py:125-157 | the global estimate is the local estimate for the region `(0, 0, width, height)` plus the bias, and is absent exactly when it is |
| Translation.GlobalRecentres | stabilizing.py:150-157 | shifting the found points by the global estimate puts their mean on the frame centre plus the bias |
| Translation.CentredOnAnchor | stabilizing.py:71-74 | found points already centred on the anchor give the zero shift (local) or exactly the bias (global) |
| TranslationStabilizer.Estimate | stabilizing.py:66-74 | for either strategy an estimate exists exactly when at least four points were found |
| TranslationStabilizer.TrackersExist | stabilizing.py:61-66 | the two tracker hypotheses are satisfiable: a tracker that finds every point in place never stalls on the four points of a factor-3 grid, and one that loses every point always stalls |
| TranslationStabilizer.Trace | stabilizing.py:61-94 | the run's state after the frames read holds as many points as the grid and one step result per frame read |
| TranslationStabilizer.TraceStep | stabilizing.py:61-66 | the step for the frame at position n is the estimate for tracking, from the frame just before it into it, the points held after the frames before it |
| TranslationStabilizer.LastStep | stabilizing.py:61-94 | one more frame adds the estimate of tracking the held points from the last frame read into it, and on success the tracked points replace the held ones |
| TranslationStabilizer.TraceKeeps | stabilizing.py:61-94 | a loop pass that records the estimate of its step and adopts or keeps the points accordingly moves the run's state from the frames read to the frames read plus the new frame |
| TranslationStabilizer.OutcomeAdvance | stabilizing.py:74-91 | a successful step that writes the buffered frames with its estimate keeps the outcome invariant: each newly written frame's shift is this step's estimate, the first success at or after it, and the written frames end at this step |
| TranslationStabilizer.OutcomeStall | stabilizing.py:92-94 | a stalled step writes nothing and keeps the outcome invariant |
| TranslationStabilizer.OutcomeComplete | stabilizing.py:74-91 | when the last step succeeded, every frame read has been written |
| TranslationStabilizer.OutcomeEmpty | stabilizing.py:92-94 | when no step succeeded, nothing has been written |
| TranslationStabilizer.TraceNeverStalls | stabilizing.py:61-66 | a tracker that never stalls on the grid's number of points makes the last step succeed |
| TranslationStabilizer.TraceAlwaysStalls | stabilizing.py:61-66 | a tracker that always stalls makes every step a stall |
| TranslationStabilizer.AdvanceKeeps | stabilizing.py:74-91 | a successful step keeps the state consistent: written frames followed by buffered ones are the frames read, the reference is the last frame, and the output is the outcome of the steps |
| TranslationStabilizer.StallKeeps | stabilizing.py:92-94 | a stalled step keeps the same consistency |
| TranslationStabilizer.Stabilizer.constructor | stabilizing.py:42-51 | the first frame is buffered, read and the reference; nothing is written; its step result is None; the points are the grid over the strategy's region; the tracker is the one given |
| TranslationStabilizer.Stabilizer.Step | stabilizing.py:61-94 | tracks the held points from the reference into the new frame and records the estimate; on success the buffered frames and the new one are written in order with that estimate, the buffer empties and the tracked points are adopted; on a stall nothing is written and the buffer grows; either way the new frame becomes the reference and the output stays the outcome of the recorded steps |
| TranslationStabilizer.Stabilizer.Advance | stabilizing.py:74-91 | appends the whole buffer plus the frame to the output with the shift, empties the buffer, adopts the new points, records the success and keeps the state consistent |
| TranslationStabilizer.Stabilizer.Stall | stabilizing.py:92-94 | writes nothing, buffers the frame, keeps the points, makes the frame the reference and records the stall |
| TranslationStabilizer.Stabilize | stabilizing.py:42-100 | written frames followed by unwritten ones are exactly the frames read, in order; against the estimates of the run's own steps from the grid, the written frames end exactly at the last successful step, and each is warped by the estimate of the first successful step at or after it; a tracker that never stalls on the grid's number of points leaves nothing unwritten, one that always stalls writes nothing |
| Matrices.Normalise | stabilizing.py:202 | the result is finite exactly when the pivot is nonzero; then its bottom-right entry is 1 and multiplying it back by the pivot gives the input |
| Matrices.Compose | stabilizing.py:259 | the product is finite exactly when both factors are |
| Matrices.MulIdentity | stabilizing.py:236-259 | the identity the running transform `H` starts from is neutral as the right factor, the position `H` holds in `smoothed_H.dot(H)` |
| Matrices.ComposeIdentity | stabilizing.py:236-259 | composing any matrix, or the non-finite outcome, onto the identity leaves it unchanged |
| Smoothing.EmaAppend | stabilizing.py:198-203 | the EMA of a history extended by one matrix is one more blend-and-normalise step on the EMA of the history |
| Smoothing.EmaNormalised | stabilizing.py:202 | a finite EMA always has bottom-right entry 1 |
| Smoothing.EmaFinite | stabilizing.py:201-202 | if every matrix in the history has bottom-right entry 1 the EMA stays finite (the pivot never vanishes) |
| Smoothing.TowardsStep | stabilizing.py:201-202 | one step on a normalised `H` maps `H + p·(I - H)` to `H + (1-alpha)·p·(I - H)` |
| Smoothing.EmaOfConstant | stabilizing.py:198-203 | the EMA of `n` copies of a normalised `H` is `H + (1-alpha)^n·(I - H)` |
| Smoothing.PowDecay | stabilizing.py:201 | `(1-alpha)^n` is nonnegative and at most `1/(1 + n·alpha)` for `0 < alpha < 1` |
| Smoothing.EmaConverges | stabilizing.py:198-203 | for a constant normalised input every entry of the EMA approaches the input's: its distance times `1 + n·alpha` never exceeds the identity's distance |
| Smoothing.ExponentialMovingAverage | stabilizing.py:198-203 | the loop computes exactly the EMA fold `Ema(hs, alpha)` |
| Smoothing.WindowLength | stabilizing.py:190-194 | the window of sample `i` holds `i+1` samples while `i+1 < size` and exactly `size` samples afterwards |
| Smoothing.MovingAverage | stabilizing.py:188-196 | the filter returns one output sample per input sample |
| Smoothing.MovingAverageConstant | stabilizing.py:188-196 | a constant input is left unchanged, with the same length |
| Smoothing.MovingAverageUnitWindow | stabilizing.py:188-196 | with window size 1 the filter is the identity |
| Smoothing.MovingAverageFilter | stabilizing.py:188-196 | the loop with its two branches computes exactly the sliding-window mean `MovingAverage(xs, size)` |
| PerspectiveStabilizer.Homography | stabilizing.py:247-254 | the solver is consulted, on the found previous and current points, exactly when at least four points were found; otherwise there is no homography |
| PerspectiveStabilizer.PassKeepsFinite | stabilizing.py:256-259 | if every homography found is normalised, a pass keeps the running transform finite and every written frame's transform finite |
| PerspectiveStabilizer.PassFromIdentity | stabilizing.py:234-259 | a pass from the initial state (empty history, identity running transform) leaves the running transform equal to the EMA of the history, whether or not it found a homography: `smoothed_H.dot(np.eye(3))` is `smoothed_H` |
| PerspectiveStabilizer.PassKeepsIdentity | stabilizing.py:253-259 | a pass with no homography keeps the history empty and the identity as the running transform |
| PerspectiveStabilizer.Trace | stabilizing.py:238-259 | the passes over the frames read keep as many points as the grid, add at most one homography per pass, and record one running transform per frame read, the last being the current `H` |
| PerspectiveStabilizer.LastPass | stabilizing.py:238-259 | one more frame tracks `prev_pts` from the last frame read into it, appends the homography found (if any) to the history, composes the EMA of the history onto `H` only when one was found, and adopts the tracked points either way |
| PerspectiveStabilizer.TracePrefix | stabilizing.py:238-259 | the transform recorded for frame n is `H` after the passes over the frames up to and including frame n |
| PerspectiveStabilizer.TraceFinite | stabilizing.py:256-259 | with a normalising solver every homography in the history is normalised and `H` is finite after every pass |
| PerspectiveStabilizer.TraceIdentity | stabilizing.py:253-259 | with a solver that never succeeds the history stays empty and `H` is the identity after every pass |
| PerspectiveStabilizer.PassGrows | stabilizing.py:253-259 | one pass adds at most one homography to the end of the history, and a pass that adds none leaves `H` unchanged |
| PerspectiveStabilizer.HistoryGrows | stabilizing.py:256-257 | over any stretch of frames the earlier history stays, in order, at the front of the later one |
| PerspectiveStabilizer.Frozen | stabilizing.py:253-259 | over a stretch of frames in which no homography is found, `H` stays frozen at its value before the stretch |
| PerspectiveStabilizer.WarpedKeeps | stabilizing.py:261-277 | writing the drained buffer and the new frame with `H` keeps every written frame warped by the `H` of the pass that wrote it: the first frame by pass 1, every other frame by its own pass |
| PerspectiveStabilizer.WarpedByRun | stabilizing.py:261-277 | frames written with the recorded transforms of a run carry the `H` of the pass that wrote them |
| PerspectiveStabilizer.FollowsKeeps | stabilizing.py:238-259 | a pass as `Step` performs it keeps the state equal to the passes over the frames read |
| PerspectiveStabilizer.Stabilizer.TracedStep | stabilizing.py:238-277 | one pass keeps the state equal to the passes over the frames read, the new frame included, and empties the buffer |
| PerspectiveStabilizer.Stabilizer.constructor | stabilizing.py:226-236 | the first frame is buffered and the reference; the points are the grid; the history is empty, the smoothed and running transforms are the identity, and the identity is recorded as the transform of the first frame |
| PerspectiveStabilizer.Stabilizer.Step | stabilizing.py:238-277 | a found homography joins the history and the EMA of the whole history is composed onto the running transform, otherwise it is kept; then all buffered frames and the new one are written with the running transform, which is recorded for the new frame, the buffer empties and the tracked points become `prev_pts`; finiteness under a normalising solver, and the identity under a solver that never succeeds, are preserved |
| PerspectiveStabilizer.Stabilizer.Smooth | stabilizing.py:256-259 | appends the homography, recomputes the smoothed matrix over the whole history and composes it onto the running transform, changing nothing else |
| PerspectiveStabilizer.Stabilizer.Write | stabilizing.py:261-277 | writes the buffer and the frame with the running transform and records it for the frame, empties the buffer and moves the reference, leaving the transforms untouched |
| PerspectiveStabilizer.Stabilizer.Run | stabilizing.py:238-280 | after the loop all frames are read, the buffer is empty if any frame followed the first, and `prev_pts`, `H_matrices`, `H` and the transform recorded for every frame are exactly those of the passes over all frames read from the grid (`Trace`) |
| PerspectiveStabilizer.Stabilize | stabilizing.py:221-280 | with at least two frames every frame is written exactly once in order, and a single-frame video writes nothing; frame k is warped by `H` as the passes over the grid leave it at the end of the pass that writes it (pass 1 for the first frame, pass k otherwise); a normalising solver gives only finite transforms, and a solver that never succeeds leaves every frame warped by the identity |
| StaticGrid.GridCentroidX | stabilizing.py:22-25 | the mean x of the grid points is `x + factor·(w // factor)/2` |
| StaticGrid.GridCentroidY | stabilizing.py:22-25 | the mean y of the grid points is `y + factor·(h // factor)/2` |
| StaticGrid.StaticLocalShift | stabilizing.py:44-74 | on a static scene (every grid point found in place) with `factor >= 3` the local estimate is `(w//2 - factor·(w//factor)/2, h//2 - factor·(h//factor)/2)` |
| StaticGrid.StaticSceneIsShifted | stabilizing.py:44-74 | a static 10×10 region with factor 4 is shifted by (1, 1), not left in place |
| StaticGrid.StaticShiftZero | stabilizing.py:45-46 | the static shift on one axis is zero exactly when the extent is even and a multiple of `factor`, or odd and one more than a multiple of it |

## Left out

- Video input and output (`cv2.VideoCapture`, `cv2.VideoWriter`, frame rate and size, opening errors and the missing-first-frame early returns): a run is given its first frame and the rest as a sequence.
- The warps (`cv2.warpAffine`, `cv2.warpPerspective`) and the grayscale conversion: a written frame is recorded with the transform it is warped by, and a reference frame stands for its grayscale image.
- The preview: the circles drawn on the buffered frames (drawn on the originals after copying, so they never reach the output), `cv2.imshow`, `draw_progress_bar`, the frame counter and progress ratio, and `cv2.destroyAllWindows`.
- The `q` key that ends a run early (`cv2.waitKey`): such a run is the model's run over a shorter input.
- The Lucas–Kanade parameters (`lk_params`): they configure the tracker, which is a parameter. Their window is `2h × 2h`, where `h` is the region height (the frame height in the global loop) (`stabilizing.py:50`, `:131`, `:231`), and OpenCV rejects a window smaller than 3, so with `h <= 1` the source fails at its first tracking call (`stabilizing.py:64`, `:147`, `:248`). The model's tracker never fails: on such a region the run goes on with whatever the tracker returns.
- Floating point: coordinates, means, shifts and matrices are exact reals, and `float32` rounding of points and of `T` is not modelled; numpy infinities and NaNs appear only as the `None` of a zero pivot.
- Tracking an empty point list: with `factor <= 1` the grid is empty (`Grid`), OpenCV's tracker then returns no points and no status, and the source fails on the first pass, at `status.sum()` (`stabilizing.py:66`, `:149`) or at `curr_pts[status == 1]` (`stabilizing.py:251`). The model accepts `factor <= 1` (only `factor == 0` is excluded) and its tracker returns empty results, so the run finishes: the translation `Stabilize` writes nothing and returns every frame unwritten, and the perspective `Stabilize` writes every frame with the identity. Those outcomes stand for the source's failure on that input.
- The `prev_pts is not None` test (`stabilizing.py:247`): in the model the tracked points are always a list, possibly empty, so the test always holds and the model omits it.
- The `global rect` assignment in `global_stabilizer_video`: it is never read by the core.
- Smoothing.MovingAverageFilter: requires `window_size >= 1`; with a smaller window the slice is empty and numpy's mean of it is NaN, which the model does not represent. Matrices are averaged componentwise by `axis=0`, so the model averages one component (a sequence of reals).
- Smoothing.MovingAverage: the same `window_size >= 1` restriction.
- Geometry.InitializePoints: requires `factor != 0`, where the source raises `ZeroDivisionError`; the model does not represent the exception.
- The other files of the repository (`main.py`, `main-nogui.py`, `report.py`, `video_player.py`, `placeholder_entry.py`): user interface and reporting, outside the stabilisation core.
