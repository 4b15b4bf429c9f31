/** The loop of perspective_stabilizer_video (stabilizing.py:205-285): the same
    frame buffer, drained on every pass, and a running homography that only
    changes when the solver finds one. */
module PerspectiveStabilizer {
  import opened Wrappers
  import opened Video
  import opened Geometry
  import opened Translation
  import opened Matrices
  import opened Smoothing

  /** The smoothing coefficient the loop passes to exponential_moving_average. */
  const Alpha: real := 0.2

  /** The robust homography solver (cv2.findHomography with RANSAC): the
      previous and the current found points to a matrix or no solution. */
  type Solver = (seq<Point>, seq<Point>) -> Option<Matrix3>

  /** The homography one pass obtains: the solver is asked only when at least
      four point pairs were found. */
  function Homography(prevPts: seq<Point>, t: Tracked, solve: Solver): (r: Option<Matrix3>)
    requires |prevPts| == |t.status|
    ensures multiset(t.status)[1] < 4 ==> r == None
    ensures multiset(t.status)[1] >= 4 ==> r == solve(Found(prevPts, t.status), Found(t.points, t.status))
  {
    var validPrev, validCurr := Found(prevPts, t.status), Found(t.points, t.status);
    if |validPrev| >= 4 && |validCurr| >= 4 then solve(validPrev, validCurr) else None
  }

  /** A solver whose every matrix has bottom-right entry 1. */
  ghost predicate NormalisedSolver(solve: Solver)
  {
    forall a, b :: solve(a, b).Some? ==> solve(a, b).value[2][2] == 1.0
  }

  /** A solver that never finds a homography. */
  ghost predicate NeverSolves(solve: Solver)
  {
    forall a, b :: solve(a, b).None?
  }

  /** With a normalising solver, every homography found has bottom-right
      entry 1. */
  lemma NormalisedFound(prevPts: seq<Point>, t: Tracked, solve: Solver)
    requires |prevPts| == |t.status| && NormalisedSolver(solve)
    ensures Homography(prevPts, t, solve).Some? ==> Homography(prevPts, t, solve).value[2][2] == 1.0
  {
  }

  /** With a solver that never succeeds, no pass finds a homography. */
  lemma NothingFound(prevPts: seq<Point>, t: Tracked, solve: Solver)
    requires |prevPts| == |t.status| && NeverSolves(solve)
    ensures Homography(prevPts, t, solve) == None
  {
  }

  ghost predicate AllNormalised(hs: seq<Matrix3>)
  {
    forall k :: 0 <= k < |hs| ==> hs[k][2][2] == 1.0
  }

  /** Every frame written so far was warped by a finite transform. */
  ghost predicate AllFinite(written: seq<(Frame, Option<Matrix3>)>)
  {
    forall k :: 0 <= k < |written| ==> written[k].1.Some?
  }

  /** Every frame written so far was warped by the identity. */
  ghost predicate AllIdentity(written: seq<(Frame, Option<Matrix3>)>)
  {
    forall k :: 0 <= k < |written| ==> written[k].1 == Some(Identity())
  }

  /** One pass, as Step describes it, from the history, the running transform
      and the output before it to those after it: when every homography found
      is normalised, the running transform stays finite and so does every
      frame written. */
  lemma PassKeepsFinite(history: seq<Matrix3>, accum: Option<Matrix3>, output: seq<(Frame, Option<Matrix3>)>,
                        found: Option<Matrix3>, fs: seq<Frame>,
                        history': seq<Matrix3>, accum': Option<Matrix3>, output': seq<(Frame, Option<Matrix3>)>)
    requires accum.Some? && AllNormalised(history) && AllFinite(output)
    requires found.Some? ==> found.value[2][2] == 1.0
    requires history' == history + (if found.Some? then [found.value] else [])
    requires accum' == (if found.Some? then Compose(Ema(history', Alpha), accum) else accum)
    requires output' == output + Batch(fs, accum')
    ensures accum'.Some? && AllNormalised(history') && AllFinite(output')
  {
    EmaFinite(history', Alpha);
  }

  /** One pass that finds no homography keeps the identity as the running
      transform, so every frame written is warped by it. */
  lemma PassKeepsIdentity(history: seq<Matrix3>, accum: Option<Matrix3>, output: seq<(Frame, Option<Matrix3>)>,
                          found: Option<Matrix3>, fs: seq<Frame>,
                          history': seq<Matrix3>, accum': Option<Matrix3>, output': seq<(Frame, Option<Matrix3>)>)
    requires history == [] && accum == Some(Identity()) && AllIdentity(output) && found == None
    requires history' == history + (if found.Some? then [found.value] else [])
    requires accum' == (if found.Some? then Compose(Ema(history', Alpha), accum) else accum)
    requires output' == output + Batch(fs, accum')
    ensures history' == [] && accum' == Some(Identity()) && AllIdentity(output')
  {
  }

  /** A pass from the initial state (no homography yet, the identity as the
      running transform) leaves the running transform equal to the EMA of
      the history: `H = smoothed_H.dot(np.eye(3))` is `smoothed_H`. */
  lemma PassFromIdentity(history: seq<Matrix3>, accum: Option<Matrix3>, found: Option<Matrix3>,
                         history': seq<Matrix3>, accum': Option<Matrix3>)
    requires history == [] && accum == Some(Identity())
    requires history' == history + (if found.Some? then [found.value] else [])
    requires accum' == (if found.Some? then Compose(Ema(history', Alpha), accum) else accum)
    ensures accum' == Ema(history', Alpha)
  {
    ComposeIdentity(Ema(history', Alpha));
  }

  /** Where a run stands after the frames read (the first frame included):
      prev_pts, H_matrices and H after the last pass, and for each frame read
      H at the end of its pass (the identity for the first frame, which has
      no pass). */
  datatype Progress = Progress(prevPts: seq<Point>, history: seq<Matrix3>, accum: Option<Matrix3>,
                               accums: seq<Option<Matrix3>>)

  /** The passes over `read`, from the grid, the empty history and the
      identity. Each pass tracks prev_pts from the frame before into the new
      one; a homography found joins the history and the EMA of the whole
      history is composed onto H; the tracked points become prev_pts whether
      or not a homography was found. */
  function Trace(grid: seq<Point>, track: Tracker, solve: Solver, read: seq<Frame>): (p: Progress)
    requires |read| > 0
    ensures |p.prevPts| == |grid| && |p.history| < |read|
    ensures |p.accums| == |read| && p.accums[|read| - 1] == p.accum
    decreases |read|
  {
    if |read| == 1 then Progress(grid, [], Some(Identity()), [Some(Identity())])
    else
      var prev := Trace(grid, track, solve, read[..|read| - 1]);
      var t := track(read[|read| - 2], read[|read| - 1], prev.prevPts);
      var found := Homography(prev.prevPts, t, solve);
      var history := prev.history + (if found.Some? then [found.value] else []);
      var accum := if found.Some? then Compose(Ema(history, Alpha), prev.accum) else prev.accum;
      Progress(t.points, history, accum, prev.accums + [accum])
  }

  /** The transform recorded for frame n is H after the passes over the
      frames up to and including it. */
  lemma {:induction false} TracePrefix(grid: seq<Point>, track: Tracker, solve: Solver, read: seq<Frame>, n: int)
    requires 0 <= n < |read|
    ensures Trace(grid, track, solve, read).accums[n] == Trace(grid, track, solve, read[..n + 1]).accum
    decreases |read|
  {
    if n < |read| - 1 {
      var prefix := read[..|read| - 1];
      TracePrefix(grid, track, solve, prefix, n);
      assert prefix[..n + 1] == read[..n + 1];
    } else {
      assert read[..n + 1] == read;
    }
  }

  /** The run after one more frame: one more pass from the last frame read. */
  lemma LastPass(grid: seq<Point>, track: Tracker, solve: Solver, read: seq<Frame>, frame: Frame)
    requires |read| > 0
    ensures var p := Trace(grid, track, solve, read);
      var t := track(read[|read| - 1], frame, p.prevPts);
      var found := Homography(p.prevPts, t, solve);
      var history := p.history + (if found.Some? then [found.value] else []);
      var accum := if found.Some? then Compose(Ema(history, Alpha), p.accum) else p.accum;
      Trace(grid, track, solve, read + [frame]) == Progress(t.points, history, accum, p.accums + [accum])
  {
    assert (read + [frame])[..|read|] == read;
  }

  /** With a normalising solver every homography in the history is
      normalised and H stays finite after every pass. */
  lemma {:induction false} TraceFinite(grid: seq<Point>, track: Tracker, solve: Solver, read: seq<Frame>)
    requires |read| > 0 && NormalisedSolver(solve)
    ensures AllNormalised(Trace(grid, track, solve, read).history)
    ensures forall n :: 0 <= n < |read| ==> Trace(grid, track, solve, read).accums[n].Some?
    decreases |read|
  {
    if |read| > 1 {
      var prefix := read[..|read| - 1];
      TraceFinite(grid, track, solve, prefix);
      var p := Trace(grid, track, solve, prefix);
      var t := track(read[|read| - 2], read[|read| - 1], p.prevPts);
      NormalisedFound(p.prevPts, t, solve);
      var found := Homography(p.prevPts, t, solve);
      EmaFinite(p.history + (if found.Some? then [found.value] else []), Alpha);
    }
  }

  /** With a solver that never succeeds the history stays empty and H stays
      the identity after every pass. */
  lemma {:induction false} TraceIdentity(grid: seq<Point>, track: Tracker, solve: Solver, read: seq<Frame>)
    requires |read| > 0 && NeverSolves(solve)
    ensures Trace(grid, track, solve, read).history == []
    ensures forall n :: 0 <= n < |read| ==> Trace(grid, track, solve, read).accums[n] == Some(Identity())
    decreases |read|
  {
    if |read| > 1 {
      var prefix := read[..|read| - 1];
      TraceIdentity(grid, track, solve, prefix);
      var p := Trace(grid, track, solve, prefix);
      NothingFound(p.prevPts, track(read[|read| - 2], read[|read| - 1], p.prevPts), solve);
    }
  }

  /** One pass adds at most one homography to the history, and a pass that
      adds none leaves H as it was. */
  lemma PassGrows(grid: seq<Point>, track: Tracker, solve: Solver, read: seq<Frame>, frame: Frame)
    requires |read| > 0
    ensures var before, after := Trace(grid, track, solve, read), Trace(grid, track, solve, read + [frame]);
      && before.history <= after.history && |after.history| <= |before.history| + 1
      && (|after.history| == |before.history| ==> after.accum == before.accum)
  {
    LastPass(grid, track, solve, read, frame);
  }

  /** The history only grows: the homographies found before a stretch of
      frames stay, in order, at the front of the history after it. */
  lemma {:induction false} HistoryGrows(grid: seq<Point>, track: Tracker, solve: Solver, read: seq<Frame>, more: seq<Frame>)
    requires |read| > 0
    ensures Trace(grid, track, solve, read).history <= Trace(grid, track, solve, read + more).history
    decreases |more|
  {
    if more == [] {
      assert read + more == read;
    } else {
      var next := read + [more[0]];
      assert next + more[1..] == read + more;
      PassGrows(grid, track, solve, read, more[0]);
      HistoryGrows(grid, track, solve, next, more[1..]);
    }
  }

  /** Passes that add nothing to the history leave H frozen: after a stretch
      of frames `more` in which no homography is found, the running
      transform is the one before the stretch. */
  lemma {:induction false} Frozen(grid: seq<Point>, track: Tracker, solve: Solver, read: seq<Frame>, more: seq<Frame>)
    requires |read| > 0
    ensures |Trace(grid, track, solve, read + more).history| == |Trace(grid, track, solve, read).history|
            ==> Trace(grid, track, solve, read + more).accum == Trace(grid, track, solve, read).accum
    decreases |more|
  {
    if more == [] {
      assert read + more == read;
    } else {
      var next := read + [more[0]];
      assert next + more[1..] == read + more;
      PassGrows(grid, track, solve, read, more[0]);
      HistoryGrows(grid, track, solve, next, more[1..]);
      Frozen(grid, track, solve, next, more[1..]);
    }
  }

  /** The pass that writes frame k: the first pass drains the first frame
      together with frame 1; every later frame is written by its own pass. */
  function WritingPass(k: nat): (n: nat)
    ensures n >= 1 && (k >= 1 ==> n == k)
  {
    if k == 0 then 1 else k
  }

  /** Frame k was written with the running transform after the pass that
      wrote it; `accums` holds that transform for each frame read. */
  ghost predicate WarpedBy(output: seq<(Frame, Option<Matrix3>)>, accums: seq<Option<Matrix3>>)
  {
    forall k :: 0 <= k < |output| ==> WritingPass(k) < |accums| && output[k].1 == accums[WritingPass(k)]
  }

  /** Frames written with the transforms the passes recorded carry the H of
      the pass that wrote them. */
  lemma WarpedByRun(grid: seq<Point>, track: Tracker, solve: Solver, first: Frame, rest: seq<Frame>,
                    output: seq<(Frame, Option<Matrix3>)>, accums: seq<Option<Matrix3>>)
    requires WarpedBy(output, accums) && accums == Trace(grid, track, solve, [first] + rest).accums
    ensures forall k :: 0 <= k < |output| ==>
      && WritingPass(k) <= |rest|
      && output[k].1 == Trace(grid, track, solve, [first] + rest).accums[WritingPass(k)]
  {
  }

  /** Writing the drained buffer and the new frame with the running
      transform `a`, recorded as the transform of the new frame's pass. */
  lemma WarpedKeeps(output: seq<(Frame, Option<Matrix3>)>, buffer: seq<Frame>, read: seq<Frame>,
                    accums: seq<Option<Matrix3>>, frame: Frame, a: Option<Matrix3>)
    requires Frames(output) + buffer == read && |read| > 0
    requires buffer == (if |read| == 1 then read else [])
    requires |accums| == |read| && WarpedBy(output, accums)
    ensures WarpedBy(output + Batch(buffer + [frame], a), accums + [a])
  {
    assert |output| == |read| - |buffer|;
  }

  /** The state agrees with the passes over the frames read. */
  ghost predicate Follows(grid: seq<Point>, track: Tracker, solve: Solver, read: seq<Frame>,
                          prevPts: seq<Point>, history: seq<Matrix3>, accum: Option<Matrix3>,
                          accums: seq<Option<Matrix3>>)
  {
    |read| > 0 && Trace(grid, track, solve, read) == Progress(prevPts, history, accum, accums)
  }

  /** One pass, as Step describes it, keeps the state in agreement with the
      passes over the frames read. */
  lemma FollowsKeeps(grid: seq<Point>, track: Tracker, solve: Solver, read: seq<Frame>,
                     prevPts: seq<Point>, history: seq<Matrix3>, accum: Option<Matrix3>,
                     accums: seq<Option<Matrix3>>, frame: Frame, t: Tracked, found: Option<Matrix3>,
                     prevPts': seq<Point>, history': seq<Matrix3>, accum': Option<Matrix3>)
    requires Follows(grid, track, solve, read, prevPts, history, accum, accums)
    requires t == track(read[|read| - 1], frame, prevPts) && |prevPts| == |t.status|
    requires found == Homography(prevPts, t, solve)
    requires
      && prevPts' == t.points
      && history' == history + (if found.Some? then [found.value] else [])
      && accum' == (if found.Some? then Compose(Ema(history', Alpha), accum) else accum)
    ensures Follows(grid, track, solve, read + [frame], prevPts', history', accum', accums + [accum'])
  {
    LastPass(grid, track, solve, read, frame);
  }

  class Stabilizer {
    /** frame_buffer: at most the first frame, between passes. */
    var buffer: seq<Frame>
    /** What went to the VideoWriter: each frame with the running transform
        it was warped by (None: the transform had become non-finite). */
    var output: seq<(Frame, Option<Matrix3>)>
    /** prev_gray, as the frame it was converted from. */
    var prevRef: Frame
    /** prev_pts. */
    var prevPts: seq<Point>
    /** H_matrices: every homography the solver returned. */
    var history: seq<Matrix3>
    /** smoothed_H. */
    var smoothed: Option<Matrix3>
    /** H: the running transform. */
    var accum: Option<Matrix3>

    /** Every frame read so far, the first one included. */
    ghost var read: seq<Frame>
    /** For each frame read, H at the end of its pass (the identity for the
        first frame, which has no pass). */
    ghost var accums: seq<Option<Matrix3>>

    ghost predicate Valid()
      reads this
    {
      && Frames(output) + buffer == read
      && |read| > 0 && prevRef == read[|read| - 1]
      && buffer == (if |read| == 1 then read else [])
      && smoothed == Ema(history, Alpha)
      && |accums| == |read| && WarpedBy(output, accums)
    }

    /** The set-up before the loop: the first frame is buffered and is the
        reference, the points are the grid over the region, and the
        smoothed and running transforms are the identity. */
    constructor (roi: Roi, factor: int, first: Frame)
      requires factor != 0
      ensures Valid()
      ensures buffer == [first] && output == [] && prevRef == first && read == [first]
      ensures prevPts == ToPoints(Grid(roi, factor))
      ensures history == [] && smoothed == Some(Identity()) && accum == Some(Identity())
      ensures accums == [Some(Identity())]
    {
      var grid := InitializePoints(roi, factor);
      buffer := [first];
      output := [];
      prevRef := first;
      prevPts := ToPoints(grid);
      history := [];
      smoothed := Some(Identity());
      accum := Some(Identity());
      read := [first];
      accums := [Some(Identity())];
    }

    /** One pass of the loop for the newly read `frame`. A homography found
        for it is appended to the history, the EMA is recomputed over the
        whole history and composed onto the running transform; otherwise
        the running transform is kept. Then every buffered frame is written
        with the running transform, and the frame and its tracked points
        become the reference. */
    method Step(frame: Frame, track: Tracker, solve: Solver)
      requires Valid()
      modifies this
      ensures Valid()
      ensures read == old(read) + [frame]
      ensures prevRef == frame && buffer == []
      ensures var t := track(old(prevRef), frame, old(prevPts));
        var found := Homography(old(prevPts), t, solve);
        && prevPts == t.points
        && history == old(history) + (if found.Some? then [found.value] else [])
        && accum == (if found.Some? then Compose(Ema(history, Alpha), old(accum)) else old(accum))
        && output == old(output) + Batch(old(buffer) + [frame], accum)
        && accums == old(accums) + [accum]
      ensures NormalisedSolver(solve) && old(accum).Some? && AllNormalised(old(history)) && AllFinite(old(output))
              ==> accum.Some? && AllNormalised(history) && AllFinite(output)
      ensures NeverSolves(solve) && old(history) == [] && old(accum) == Some(Identity()) && AllIdentity(old(output))
              ==> history == [] && accum == Some(Identity()) && AllIdentity(output)
    {
      var t := track(prevRef, frame, prevPts);
      var found := Homography(prevPts, t, solve);
      if found.Some? {
        Smooth(found.value);
      }
      Write(frame, t.points);
      if NormalisedSolver(solve) && old(accum).Some? && AllNormalised(old(history)) && AllFinite(old(output)) {
        NormalisedFound(old(prevPts), t, solve);
        PassKeepsFinite(old(history), old(accum), old(output), found, old(buffer) + [frame], history, accum, output);
      }
      if NeverSolves(solve) && old(history) == [] && old(accum) == Some(Identity()) && AllIdentity(old(output)) {
        NothingFound(old(prevPts), t, solve);
        PassKeepsIdentity(old(history), old(accum), old(output), found, old(buffer) + [frame], history, accum, output);
      }
    }

    /** One pass of the loop, followed against the passes over `grid`: after
        it the state is that of the passes over the frames read, the new
        frame included. */
    method TracedStep(frame: Frame, track: Tracker, solve: Solver, ghost grid: seq<Point>)
      requires Valid() && Follows(grid, track, solve, read, prevPts, history, accum, accums)
      modifies this
      ensures Valid() && Follows(grid, track, solve, read, prevPts, history, accum, accums)
      ensures read == old(read) + [frame] && buffer == []
    {
      ghost var read0, prevPts0, history0, accum0, accums0 := read, prevPts, history, accum, accums;
      ghost var t := track(prevRef, frame, prevPts);
      ghost var found := Homography(prevPts, t, solve);
      Step(frame, track, solve);
      FollowsKeeps(grid, track, solve, read0, prevPts0, history0, accum0, accums0, frame, t, found,
                   prevPts, history, accum);
    }

    /** The loop over the frames after the first, one pass each: the state
        after it is that of the passes over every frame read, from `grid`. */
    method Run(frames: seq<Frame>, track: Tracker, solve: Solver, ghost grid: seq<Point>)
      requires Valid() && Follows(grid, track, solve, read, prevPts, history, accum, accums)
      modifies this
      ensures Valid() && Follows(grid, track, solve, read, prevPts, history, accum, accums)
      ensures read == old(read) + frames
      ensures Progress(prevPts, history, accum, accums) == Trace(grid, track, solve, old(read) + frames)
      ensures frames != [] ==> buffer == []
    {
      for i := 0 to |frames|
        invariant Valid() && Follows(grid, track, solve, read, prevPts, history, accum, accums)
        invariant read == old(read) + frames[..i]
        invariant i > 0 ==> buffer == []
      {
        AppendNext(old(read), frames, i);
        TracedStep(frames[i], track, solve, grid);
      }
      assert frames[..|frames|] == frames;
    }

    /** A homography was found: it joins the history, the EMA is recomputed
        over the whole history and composed onto the running transform. */
    method Smooth(h: Matrix3)
      requires Valid()
      modifies this
      ensures Valid()
      ensures history == old(history) + [h]
      ensures accum == Compose(Ema(history, Alpha), old(accum))
      ensures buffer == old(buffer) && output == old(output) && read == old(read)
      ensures prevRef == old(prevRef) && prevPts == old(prevPts) && accums == old(accums)
    {
      history := history + [h];
      smoothed := ExponentialMovingAverage(history, Alpha);
      accum := Compose(smoothed, accum);
    }

    /** The end of every pass: the buffered frames and `frame` are written
        with the running transform, the buffer is emptied, and `frame` with
        the points `next` tracked into it become the reference. */
    method Write(frame: Frame, next: seq<Point>)
      requires Valid()
      modifies this
      ensures Valid()
      ensures read == old(read) + [frame]
      ensures output == old(output) + Batch(old(buffer) + [frame], accum)
      ensures buffer == [] && prevRef == frame && prevPts == next
      ensures accums == old(accums) + [accum]
      ensures history == old(history) && smoothed == old(smoothed) && accum == old(accum)
    {
      WriteAll(output, buffer, read, frame, accum);
      WarpedKeeps(output, buffer, read, accums, frame, accum);
      accums := accums + [accum];
      output := output + Batch(buffer + [frame], accum);
      buffer := [];
      read := read + [frame];
      prevRef := frame;
      prevPts := next;
    }
  }

  /** A whole run over the frames `first` then `rest`: when at least one frame
      follows the first, every frame read is written exactly once, in order;
      a single-frame video writes nothing. Each frame is warped by H as the
      passes over the grid left it at the end of the pass that wrote it
      (TracePrefix: H after the passes over the frames up to that one). */
  method Stabilize(roi: Roi, factor: int, first: Frame, rest: seq<Frame>, track: Tracker, solve: Solver)
    returns (written: seq<(Frame, Option<Matrix3>)>, unwritten: seq<Frame>)
    requires factor != 0
    ensures Frames(written) + unwritten == [first] + rest
    ensures rest != [] ==> Frames(written) == [first] + rest && unwritten == []
    ensures rest == [] ==> written == [] && unwritten == [first]
    ensures forall k :: 0 <= k < |written| ==>
      && WritingPass(k) <= |rest|
      && written[k].1 == Trace(ToPoints(Grid(roi, factor)), track, solve, [first] + rest).accums[WritingPass(k)]
    ensures NormalisedSolver(solve) ==> forall k :: 0 <= k < |written| ==> written[k].1.Some?
    ensures NeverSolves(solve) ==> forall k :: 0 <= k < |written| ==> written[k].1 == Some(Identity())
  {
    ghost var grid := ToPoints(Grid(roi, factor));
    var s := new Stabilizer(roi, factor, first);
    s.Run(rest, track, solve, grid);
    WarpedByRun(grid, track, solve, first, rest, s.output, s.accums);
    if NormalisedSolver(solve) {
      TraceFinite(grid, track, solve, s.read);
    }
    if NeverSolves(solve) {
      TraceIdentity(grid, track, solve, s.read);
    }
    written, unwritten := s.output, s.buffer;
  }
}
