/** The frame-buffer and stall state machine of local_stabilizer_video
    (stabilizing.py:28-102) and global_stabilizer_video (stabilizing.py:105-185),
    which share it and differ only in the estimate. */
module TranslationStabilizer {
  import opened Wrappers
  import opened Video
  import opened Geometry
  import opened Translation

  /** Local: a user-chosen region. Global: the whole width-by-height frame
      with a fixed bias (max_shift_x, max_shift_y). */
  datatype Strategy = Local(roi: Roi) | Global(width: int, height: int, shiftX: int, shiftY: int)

  /** The rectangle the tracking grid is sampled from. */
  function Region(strategy: Strategy): Roi
  {
    match strategy
    case Local(roi) => roi
    case Global(width, height, _, _) => Roi(0, 0, width, height)
  }

  function Estimate(strategy: Strategy, t: Tracked): (r: Option<Shift>)
    ensures r.Some? <==> multiset(t.status)[1] >= 4
  {
    match strategy
    case Local(roi) => EstimateLocal(roi, t)
    case Global(width, height, shiftX, shiftY) => EstimateGlobal(width, height, shiftX, shiftY, t)
  }

  /** A tracker for which every step of this strategy on n points succeeds. */
  ghost predicate NeverStalls(strategy: Strategy, track: Tracker, n: nat)
  {
    forall a, b, ps :: |ps| == n ==> Estimate(strategy, track(a, b, ps)).Some?
  }

  /** A tracker for which every step of this strategy stalls. */
  ghost predicate AlwaysStalls(strategy: Strategy, track: Tracker)
  {
    forall a, b, ps :: Estimate(strategy, track(a, b, ps)).None?
  }

  /** A tracker for a scene that does not move: every point is found where it was. */
  function Stationary(): Tracker
  {
    (a: Frame, b: Frame, ps: seq<Point>) => TrackResult(ps, seq(|ps|, _ => 1))
  }

  /** A tracker that loses every point. */
  function Lost(): Tracker
  {
    (a: Frame, b: Frame, ps: seq<Point>) => TrackResult(ps, seq(|ps|, _ => 0))
  }

  /** Both predicates can hold: a stationary scene with factor 3 (four grid
      points) never stalls, and a tracker that loses everything always does. */
  lemma TrackersExist(strategy: Strategy)
    ensures |Grid(Region(strategy), 3)| == 4
    ensures NeverStalls(strategy, Stationary(), 4)
    ensures AlwaysStalls(strategy, Lost())
  {
    forall a, b, ps: seq<Point> | |ps| == 4
      ensures Estimate(strategy, Stationary()(a, b, ps)).Some?
    {
      assert Stationary()(a, b, ps).status == [1, 1, 1, 1];
    }
    forall a, b, ps: seq<Point>
      ensures Estimate(strategy, Lost()(a, b, ps)).None?
    {
      var flags := Lost()(a, b, ps).status;
      assert 1 !in multiset(flags);
    }
  }

  /** Where a run stands after the frames read: the points it holds, and for
      each frame read the estimate its tracking step produced (None for the
      first frame, which has no step, and for a stall). */
  datatype Progress = Progress(held: seq<Point>, steps: seq<Option<Shift>>)

  /** The run over `read` (the first frame included), step by step from the
      grid: each step tracks the held points from the frame before (after a
      stall too) into the new frame; a success adopts the tracked points, a
      stall keeps them. */
  function Trace(strategy: Strategy, track: Tracker, grid: seq<Point>, read: seq<Frame>): (p: Progress)
    requires |read| > 0
    ensures |p.held| == |grid| && |p.steps| == |read|
    decreases |read|
  {
    if |read| == 1 then Progress(grid, [None])
    else
      var prev := Trace(strategy, track, grid, read[..|read| - 1]);
      var t := track(read[|read| - 2], read[|read| - 1], prev.held);
      var e := Estimate(strategy, t);
      Progress(if e.Some? then t.points else prev.held, prev.steps + [e])
  }

  /** The step for the frame at position n >= 1 tracks the points held after
      the frames before it, from the frame just before it. */
  lemma {:induction false} TraceStep(strategy: Strategy, track: Tracker, grid: seq<Point>, read: seq<Frame>, n: int)
    requires 1 <= n < |read|
    ensures Trace(strategy, track, grid, read).steps[n]
         == Estimate(strategy, track(read[n - 1], read[n], Trace(strategy, track, grid, read[..n]).held))
    decreases |read|
  {
    var prefix := read[..|read| - 1];
    if n < |read| - 1 {
      TraceStep(strategy, track, grid, prefix, n);
      assert prefix[..n] == read[..n];
    } else {
      assert read[..n] == prefix;
    }
  }

  /** What a run has written, against the estimates of its steps:
      - the written frames end at the last successful step, and no step after
        them succeeded;
      - frame k was written with the estimate of step origin[k], the first
        successful step at or after it: a stalled frame gets the shift found
        for a later frame. */
  ghost predicate Outcome(steps: seq<Option<Shift>>, output: seq<(Frame, Shift)>, origin: seq<nat>)
  {
    && |origin| == |output| <= |steps|
    && (forall k :: 0 <= k < |output| ==>
          && k <= origin[k] < |steps|
          && steps[origin[k]] == Some(output[k].1)
          && forall n :: k <= n < origin[k] ==> steps[n].None?)
    && (|output| > 0 ==> steps[|output| - 1].Some?)
    && (forall n :: |output| <= n < |steps| ==> steps[n].None?)
  }

  /** The run after one more frame. */
  lemma LastStep(strategy: Strategy, track: Tracker, grid: seq<Point>, read: seq<Frame>, frame: Frame)
    requires |read| > 0
    ensures var p := Trace(strategy, track, grid, read);
      var t := track(read[|read| - 1], frame, p.held);
      var e := Estimate(strategy, t);
      Trace(strategy, track, grid, read + [frame]) == Progress(if e.Some? then t.points else p.held, p.steps + [e])
  {
    assert (read + [frame])[..|read|] == read;
  }

  /** The trace state after one more frame is what one step of the loop
      computes from the state before it. */
  lemma TraceKeeps(strategy: Strategy, track: Tracker, grid: seq<Point>, read: seq<Frame>, frame: Frame,
                   points: seq<Point>, steps: seq<Option<Shift>>, points': seq<Point>, steps': seq<Option<Shift>>)
    requires |read| > 0 && Trace(strategy, track, grid, read) == Progress(points, steps)
    requires var t := track(read[|read| - 1], frame, points);
      && steps' == steps + [Estimate(strategy, t)]
      && points' == (if Estimate(strategy, t).Some? then t.points else points)
    ensures Trace(strategy, track, grid, read + [frame]) == Progress(points', steps')
  {
    LastStep(strategy, track, grid, read, frame);
  }

  /** A successful step for a newly read frame writes the buffered frames fs
      (ending with the new frame) with its estimate, attributed to it. */
  lemma OutcomeAdvance(steps: seq<Option<Shift>>, output: seq<(Frame, Shift)>, origin: seq<nat>,
                       fs: seq<Frame>, shift: Shift)
    requires Outcome(steps, output, origin) && |output| + |fs| == |steps| + 1
    ensures Outcome(steps + [Some(shift)], output + Batch(fs, shift), origin + Copies(|fs|, |steps|))
  {
  }

  /** A stalled step writes nothing and keeps what was written attributed. */
  lemma OutcomeStall(steps: seq<Option<Shift>>, output: seq<(Frame, Shift)>, origin: seq<nat>)
    requires Outcome(steps, output, origin)
    ensures Outcome(steps + [None], output, origin)
  {
  }

  /** When the last step succeeded, every frame read has been written. */
  lemma OutcomeComplete(steps: seq<Option<Shift>>, output: seq<(Frame, Shift)>, origin: seq<nat>)
    requires Outcome(steps, output, origin) && |steps| > 0 && steps[|steps| - 1].Some?
    ensures |output| == |steps|
  {
  }

  /** When no step succeeded, nothing has been written. */
  lemma OutcomeEmpty(steps: seq<Option<Shift>>, output: seq<(Frame, Shift)>, origin: seq<nat>)
    requires Outcome(steps, output, origin) && forall n :: 0 <= n < |steps| ==> steps[n].None?
    ensures output == []
  {
  }

  /** With a tracker that never stalls on the grid's size, the last step of a
      run of two frames or more succeeds. */
  lemma TraceNeverStalls(strategy: Strategy, track: Tracker, grid: seq<Point>, read: seq<Frame>)
    requires NeverStalls(strategy, track, |grid|) && |read| > 1
    ensures Trace(strategy, track, grid, read).steps[|read| - 1].Some?
  {
    TraceStep(strategy, track, grid, read, |read| - 1);
  }

  /** With a tracker that always stalls, no step of a run succeeds. */
  lemma TraceAlwaysStalls(strategy: Strategy, track: Tracker, grid: seq<Point>, read: seq<Frame>)
    requires AlwaysStalls(strategy, track) && |read| > 0
    ensures forall n :: 0 <= n < |read| ==> Trace(strategy, track, grid, read).steps[n].None?
  {
    forall n | 1 <= n < |read|
      ensures Trace(strategy, track, grid, read).steps[n].None?
    {
      TraceStep(strategy, track, grid, read, n);
    }
  }

  /** The loop's state against the frames read: written frames followed by
      buffered frames are the frames read, the reference is the last frame
      read, there is one step result per frame read, and the output is the
      outcome of those steps. */
  ghost predicate Consistent(read: seq<Frame>, output: seq<(Frame, Shift)>, origin: seq<nat>,
                             buffer: seq<Frame>, prevRef: Frame, steps: seq<Option<Shift>>)
  {
    && Frames(output) + buffer == read
    && |read| > 0 && prevRef == read[|read| - 1]
    && |steps| == |read|
    && Outcome(steps, output, origin)
  }

  /** A successful step keeps the state consistent. */
  lemma AdvanceKeeps(read: seq<Frame>, output: seq<(Frame, Shift)>, origin: seq<nat>,
                     buffer: seq<Frame>, prevRef: Frame, steps: seq<Option<Shift>>, frame: Frame, shift: Shift)
    requires Consistent(read, output, origin, buffer, prevRef, steps)
    ensures Consistent(read + [frame], output + Batch(buffer + [frame], shift),
                       origin + Copies(|buffer| + 1, |read|), [], frame, steps + [Some(shift)])
  {
    WriteAll(output, buffer, read, frame, shift);
    OutcomeAdvance(steps, output, origin, buffer + [frame], shift);
  }

  /** A stalled step keeps the state consistent. */
  lemma StallKeeps(read: seq<Frame>, output: seq<(Frame, Shift)>, origin: seq<nat>,
                   buffer: seq<Frame>, prevRef: Frame, steps: seq<Option<Shift>>, frame: Frame)
    requires Consistent(read, output, origin, buffer, prevRef, steps)
    ensures Consistent(read + [frame], output, origin, buffer + [frame], frame, steps + [None])
  {
    BufferOne(output, buffer, read, frame);
    OutcomeStall(steps, output, origin);
  }

  class Stabilizer {
    const strategy: Strategy
    /** The optical-flow primitive every step calls. */
    const track: Tracker
    /** frame_buffer: frames read since the last successful step. */
    var buffer: seq<Frame>
    /** What went to the VideoWriter: each frame with the shift it was warped by. */
    var output: seq<(Frame, Shift)>
    /** prev_gray, as the frame it was converted from. */
    var prevRef: Frame
    /** points_to_track. */
    var points: seq<Point>

    /** Every frame read so far, the first one included. */
    ghost var read: seq<Frame>
    /** For each frame read, the estimate its step produced (None for the
        first frame and for a stall). */
    ghost var steps: seq<Option<Shift>>
    /** For each written frame, the position in `read` of the frame whose
        tracking step produced its shift. */
    ghost var origin: seq<nat>

    ghost predicate Valid()
      reads this
    {
      Consistent(read, output, origin, buffer, prevRef, steps)
    }

    /** The set-up before the loop: the first frame is buffered and is the
        tracking reference; the points are the grid over the region. */
    constructor (strategy: Strategy, track: Tracker, factor: int, first: Frame)
      requires factor != 0
      ensures Valid()
      ensures this.strategy == strategy && this.track == track
      ensures buffer == [first] && output == [] && prevRef == first && read == [first] && steps == [None]
      ensures points == ToPoints(Grid(Region(strategy), factor))
    {
      var sampled := InitializePoints(Region(strategy), factor);
      this.strategy := strategy;
      this.track := track;
      buffer := [first];
      output := [];
      prevRef := first;
      points := ToPoints(sampled);
      read := [first];
      steps := [None];
      origin := [];
    }

    /** One pass of the loop for the newly read `frame`. On success every
        buffered frame is written, in order, with the one shift, and the
        buffer is emptied; on a stall nothing is written and the buffer
        grows by one. Either way the reference becomes the new frame, and
        the step's estimate is recorded. */
    method Step(frame: Frame)
      requires Valid()
      modifies this
      ensures Valid()
      ensures read == old(read) + [frame]
      ensures prevRef == frame
      ensures var t := track(old(prevRef), frame, old(points));
        && steps == old(steps) + [Estimate(strategy, t)]
        && match Estimate(strategy, t)
           case Some(shift) =>
             && output == old(output) + Batch(old(buffer) + [frame], shift)
             && buffer == []
             && points == t.points
           case None =>
             && output == old(output)
             && buffer == old(buffer) + [frame]
             && points == old(points)
    {
      var t := track(prevRef, frame, points);
      var estimate := Estimate(strategy, t);
      if estimate.Some? {
        Advance(frame, estimate.value, t.points);
      } else {
        Stall(frame);
      }
    }

    /** A successful step: the buffered frames and `frame` are written with
        the estimate `shift`, the buffer is emptied and the tracked points
        `next` are adopted. */
    method Advance(frame: Frame, shift: Shift, next: seq<Point>)
      requires Valid()
      modifies this
      ensures Valid()
      ensures read == old(read) + [frame] && steps == old(steps) + [Some(shift)]
      ensures prevRef == frame
      ensures output == old(output) + Batch(old(buffer) + [frame], shift)
      ensures buffer == [] && points == next
    {
      ghost var current := |read|;
      AdvanceKeeps(read, output, origin, buffer, prevRef, steps, frame, shift);
      origin := origin + Copies(|buffer| + 1, current);
      output := output + Batch(buffer + [frame], shift);
      buffer := [];
      read := read + [frame];
      steps := steps + [Some(shift)];
      prevRef := frame;
      points := next;
    }

    /** A stalled step: `frame` is buffered and becomes the reference;
        nothing is written and the points are kept. */
    method Stall(frame: Frame)
      requires Valid()
      modifies this
      ensures Valid()
      ensures read == old(read) + [frame] && steps == old(steps) + [None]
      ensures prevRef == frame
      ensures output == old(output) && buffer == old(buffer) + [frame] && points == old(points)
    {
      StallKeeps(read, output, origin, buffer, prevRef, steps, frame);
      buffer, read, steps, prevRef := buffer + [frame], read + [frame], steps + [None], frame;
    }
  }

  /** A whole run over the frames `first` then `rest`: the frames written are
      the read frames up to the last successful step, in order and each once,
      each with the estimate of the first successful step at or after it;
      the frames buffered after that step are never written. */
  method Stabilize(strategy: Strategy, factor: int, first: Frame, rest: seq<Frame>, track: Tracker)
    returns (written: seq<(Frame, Shift)>, unwritten: seq<Frame>, ghost origin: seq<nat>)
    requires factor != 0
    ensures Frames(written) + unwritten == [first] + rest
    ensures Outcome(Trace(strategy, track, ToPoints(Grid(Region(strategy), factor)), [first] + rest).steps, written, origin)
    ensures NeverStalls(strategy, track, |Grid(Region(strategy), factor)|) && rest != [] ==> unwritten == []
    ensures AlwaysStalls(strategy, track) ==> written == [] && unwritten == [first] + rest
  {
    ghost var grid := ToPoints(Grid(Region(strategy), factor));
    var s := new Stabilizer(strategy, track, factor, first);
    for i := 0 to |rest|
      invariant s.Valid() && s.strategy == strategy && s.track == track
      invariant s.read == [first] + rest[..i]
      invariant Trace(strategy, track, grid, s.read) == Progress(s.points, s.steps)
    {
      AppendNext([first], rest, i);
      ghost var read, points, steps := s.read, s.points, s.steps;
      s.Step(rest[i]);
      TraceKeeps(strategy, track, grid, read, rest[i], points, steps, s.points, s.steps);
    }
    assert rest[..|rest|] == rest;
    if NeverStalls(strategy, track, |Grid(Region(strategy), factor)|) && rest != [] {
      TraceNeverStalls(strategy, track, grid, s.read);
      OutcomeComplete(s.steps, s.output, s.origin);
    }
    if AlwaysStalls(strategy, track) {
      TraceAlwaysStalls(strategy, track, grid, s.read);
      OutcomeEmpty(s.steps, s.output, s.origin);
    }
    written, unwritten, origin := s.output, s.buffer, s.origin;
  }
}
