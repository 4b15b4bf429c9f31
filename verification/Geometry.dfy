/** Regions, tracked points, the tracker's boundary contract and the point-grid
    sampler (initialize_points, stabilizing.py:19-26). */
module Geometry {
  import opened Video

  /** A rectangle (x, y, width, height) in pixels. */
  datatype Roi = Roi(x: int, y: int, w: int, h: int)

  /** A tracked location. The source keeps points as float32; they are reals here. */
  datatype Point = Point(x: real, y: real)

  /** A tracker status flag: 1 when the point was found in the new frame. */
  type Flag = f: int | 0 <= f <= 1

  /** What the sparse optical-flow primitive returns: one new position and one
      status flag per tracked point. */
  datatype TrackResult = TrackResult(points: seq<Point>, status: seq<Flag>)

  type Tracked = t: TrackResult | |t.points| == |t.status|
    witness TrackResult([], [])

  /** The optical-flow oracle: (previous frame, current frame, points) to the
      tracked points, one result per input point. The grey-scale conversion
      that precedes it in the source is deterministic and folded into it. */
  type Tracker = f: (Frame, Frame, seq<Point>) -> Tracked
    | forall a, b, ps :: |f(a, b, ps).points| == |ps|
    witness (a: Frame, b: Frame, ps: seq<Point>) =>
      TrackResult(ps, seq(|ps|, _ => 0))

  /** Python's floor division `a // b`. For a positive divisor it is Dafny's
      Euclidean division; for a negative one both operands are negated first. */
  function FloorDiv(a: int, b: int): (q: int)
    requires b != 0
    ensures b * q <= a < b * q + b || b * q + b < a <= b * q
  {
    if b > 0 then a / b else (-a) / (-b)
  }

  /** Grid lines per axis: `range(1, factor)` has this many elements. */
  function Side(factor: int): nat
  {
    if factor > 1 then factor - 1 else 0
  }

  /** The k-th point of an n-by-n grid, counted with the column index outer. */
  function GridPoint(roi: Roi, stepX: int, stepY: int, n: nat, k: nat): (int, int)
    requires n > 0
  {
    (roi.x + (k / n + 1) * stepX, roi.y + (k % n + 1) * stepY)
  }

  /** The grid initialize_points builds, stated in closed form: point k is
      column k / n + 1 and row k % n + 1 of the n-by-n interior grid. */
  function Grid(roi: Roi, factor: int): (g: seq<(int, int)>)
    requires factor != 0
  {
    var n := Side(factor);
    if n == 0 then []
    else
      var stepX, stepY := FloorDiv(roi.w, factor), FloorDiv(roi.h, factor);
      seq(n * n, k requires 0 <= k < n * n => GridPoint(roi, stepX, stepY, n, k))
  }

  /** The float32 conversion of the grid (exact for pixel-sized integers). */
  function ToPoints(g: seq<(int, int)>): (ps: seq<Point>)
    ensures |ps| == |g|
    ensures forall k :: 0 <= k < |g| ==> ps[k] == Point(g[k].0 as real, g[k].1 as real)
  {
    seq(|g|, k requires 0 <= k < |g| => Point(g[k].0 as real, g[k].1 as real))
  }

  /** Position of column i and row j (both from 1) in an n-by-n grid. */
  function Index(i: int, j: int, n: int): int
  {
    (i - 1) * n + (j - 1)
  }

  lemma MulMonotone(a: int, b: int, c: nat)
    requires a <= b
    ensures a * c <= b * c
  {
  }

  lemma DivModOfIndex(a: nat, b: nat, n: nat)
    requires b < n
    ensures (a * n + b) / n == a && (a * n + b) % n == b
  {
    var k := a * n + b;
    var q, r := k / n, k % n;
    assert (q - a) * n == b - r;
    if q - a >= 1 {
      MulMonotone(1, q - a, n);
    } else if q - a <= -1 {
      MulMonotone(q - a, -1, n);
    }
  }

  /** initialize_points: for i in 1..factor-1, for j in 1..factor-1, append
      (x + i * step_x, y + j * step_y). */
  method InitializePoints(roi: Roi, factor: int) returns (points: seq<(int, int)>)
    requires factor != 0
    ensures points == Grid(roi, factor)
  {
    var stepX, stepY := FloorDiv(roi.w, factor), FloorDiv(roi.h, factor);
    var n := Side(factor);
    points := [];
    var i := 1;
    while i < factor
      invariant 1 <= i && (factor > 1 ==> i <= factor)
      invariant |points| == (i - 1) * n
      invariant forall k :: 0 <= k < |points| ==> points[k] == GridPoint(roi, stepX, stepY, n, k)
    {
      var j := 1;
      while j < factor
        invariant 1 <= j <= factor
        invariant |points| == (i - 1) * n + (j - 1)
        invariant forall k :: 0 <= k < |points| ==> points[k] == GridPoint(roi, stepX, stepY, n, k)
      {
        DivModOfIndex(i - 1, j - 1, n);
        points := points + [(roi.x + i * stepX, roi.y + j * stepY)];
        j := j + 1;
      }
      i := i + 1;
    }
    if n > 0 {
      assert i == factor;
    }
  }

  /** Grid shape: (factor - 1)^2 points, the one for column i and row j
      (both from 1, column outer) at Index(i, j, factor - 1). */
  lemma GridAt(roi: Roi, factor: int, i: int, j: int)
    requires factor > 1
    requires 1 <= i < factor && 1 <= j < factor
    ensures |Grid(roi, factor)| == (factor - 1) * (factor - 1)
    ensures 0 <= Index(i, j, factor - 1) < |Grid(roi, factor)|
    ensures Grid(roi, factor)[Index(i, j, factor - 1)]
         == (roi.x + i * (roi.w / factor), roi.y + j * (roi.h / factor))
  {
    var n := factor - 1;
    var k := Index(i, j, n);
    DivModOfIndex(i - 1, j - 1, n);
    assert k < n * n by {
      MulMonotone(i, n, n);
    }
    assert k / n + 1 == i && k % n + 1 == j;
  }

  lemma StepBounds(extent: int, factor: int, a: int)
    requires factor > 1 && extent >= factor && 1 <= a < factor
    ensures 0 < a * (extent / factor) < extent
  {
    var s := extent / factor;
    var r := extent % factor;
    assert extent == factor * s + r;
    assert s >= 1 by {
      if s <= 0 {
        MulMonotone(s, 0, factor);
      }
    }
    MulMonotone(a, factor - 1, s);
    assert (factor - 1) * s == factor * s - s;
  }

  /** The coordinates point k of the grid is built from. */
  lemma GridPointIndices(roi: Roi, factor: int, k: int)
    requires factor > 1 && 0 <= k < Side(factor) * Side(factor)
    ensures 1 <= k / Side(factor) + 1 < factor && 1 <= k % Side(factor) + 1 < factor
  {
    var n := Side(factor);
    if k / n >= n {
      MulMonotone(n, k / n, n);
    }
  }

  /** When the region is at least `factor` pixels wide and high every grid
      point lies strictly inside it. */
  lemma GridInside(roi: Roi, factor: int)
    requires factor > 1 && roi.w >= factor && roi.h >= factor
    ensures forall p :: p in Grid(roi, factor) ==>
      roi.x < p.0 < roi.x + roi.w && roi.y < p.1 < roi.y + roi.h
  {
    var n := Side(factor);
    var g := Grid(roi, factor);
    forall p | p in g
      ensures roi.x < p.0 < roi.x + roi.w && roi.y < p.1 < roi.y + roi.h
    {
      var k :| 0 <= k < |g| && g[k] == p;
      GridPointIndices(roi, factor, k);
      StepBounds(roi.w, factor, k / n + 1);
      StepBounds(roi.h, factor, k % n + 1);
    }
  }

  lemma ZeroStep(origin: int, a: int, extent: int, factor: int)
    requires factor > 1 && 0 <= extent < factor
    ensures origin + a * (extent / factor) == origin
  {
    assert extent / factor == 0;
  }

  /** A region narrower than `factor` gives a zero step: every point sits on
      the region's left edge; likewise for the rows of a low region. */
  lemma GridDegenerate(roi: Roi, factor: int)
    requires factor > 1
    ensures 0 <= roi.w < factor ==> forall p :: p in Grid(roi, factor) ==> p.0 == roi.x
    ensures 0 <= roi.h < factor ==> forall p :: p in Grid(roi, factor) ==> p.1 == roi.y
  {
    var n := Side(factor);
    var g := Grid(roi, factor);
    forall p | p in g
      ensures 0 <= roi.w < factor ==> p.0 == roi.x
      ensures 0 <= roi.h < factor ==> p.1 == roi.y
    {
      var k :| 0 <= k < |g| && g[k] == p;
      assert p == GridPoint(roi, roi.w / factor, roi.h / factor, n, k);
      if 0 <= roi.w < factor {
        ZeroStep(roi.x, k / n + 1, roi.w, factor);
      }
      if 0 <= roi.h < factor {
        ZeroStep(roi.y, k % n + 1, roi.h, factor);
      }
    }
  }
}
