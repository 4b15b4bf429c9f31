/** What the local and global estimates give for a static scene: the tracker
    finds every grid point where it was. The anchor is the integer centre
    x + w // 2, but the grid's centroid is x + (w // factor) * factor / 2, so
    the estimate is the identity only when the two agree. */
module StaticGrid {
  import opened Wrappers
  import opened Averages
  import opened Geometry
  import opened Translation
  import opened Video

  /** start + step, start + 2 * step, ..., start + m * step, as one sequence.
      The rows of the grid repeat this whole sequence (RowLayout), so the
      y-coordinates are summed through it. Column below gives the same
      values one at a time, by recursion on c, which is the form the
      column-major induction over the x-coordinates needs:
      Progression(x, sx, m)[c - 1] == Column(x, sx, c) by ColumnClosed. */
  function Progression(start: real, step: real, m: nat): (ps: seq<real>)
    ensures |ps| == m
    ensures forall b :: 0 <= b < m ==> ps[b] == start + ((b + 1) as real) * step
  {
    seq(m, b requires 0 <= b < m => start + ((b + 1) as real) * step)
  }

  lemma ProgressionStep(start: real, step: real, m: real)
    ensures (m - 1.0) * (2.0 * start + m * step) + 2.0 * (start + m * step)
         == m * (2.0 * start + (m + 1.0) * step)
  {
  }

  lemma {:induction false} SumProgression(start: real, step: real, m: nat)
    ensures 2.0 * Sum(Progression(start, step, m)) == (m as real) * (2.0 * start + ((m + 1) as real) * step)
  {
    if m > 0 {
      var last := start + (m as real) * step;
      assert Progression(start, step, m)[m - 1] == last;
      assert Progression(start, step, m) == Progression(start, step, m - 1) + [last];
      SumProgression(start, step, m - 1);
      SumAppend(Progression(start, step, m - 1), [last]);
      ProgressionStep(start, step, m as real);
    }
  }

  /** A static tracker's result for the grid: every point found where it was. */
  function StaticResult(roi: Roi, factor: int): (t: Tracked)
    requires factor != 0
  {
    var ps := ToPoints(Grid(roi, factor));
    TrackResult(ps, seq(|ps|, _ => 1))
  }

  lemma {:induction false} FoundAll(ps: seq<Point>, status: seq<Flag>)
    requires |ps| == |status| && forall k :: 0 <= k < |status| ==> status[k] == 1
    ensures Found(ps, status) == ps
  {
    if ps != [] {
      FoundAll(ps[1..], status[1..]);
    }
  }

  lemma BlockIndex(a: nat, n: nat, k: int)
    requires a * n <= k < a * n + n
    ensures k / n == a && k % n == k - a * n
  {
    DivModOfIndex(a, k - a * n, n);
  }

  lemma MulSucc(b: nat, n: nat)
    ensures (b + 1) * n == b * n + n
  {
  }

  lemma CopiesSum(n: nat, v: real)
    ensures Sum(Copies(n, v)) == (n as real) * v
  {
    SumConstant(Copies(n, v), v);
  }

  /** n times v, as n additions of v. */
  function Times(n: nat, v: real): real
  {
    if n == 0 then 0.0 else Times(n - 1, v) + v
  }

  lemma {:induction false} TimesClosed(n: nat, v: real)
    ensures Times(n, v) == (n as real) * v
  {
    if n > 0 {
      TimesClosed(n - 1, v);
      ScaleStep(Times(n, v), Times(n - 1, v), v, n as real);
    }
  }

  /** The position x + c * sx of column c, by repeated steps of sx. */
  function Column(x: real, sx: real, c: nat): real
  {
    if c == 0 then x else Column(x, sx, c - 1) + sx
  }

  lemma AddStep(x: real, sx: real, b: real, prev: real)
    requires prev == x + b * sx
    ensures prev + sx == x + (b + 1.0) * sx
  {
  }

  lemma {:induction false} ColumnClosed(x: real, sx: real, c: nat)
    ensures Column(x, sx, c) == x + (c as real) * sx
  {
    if c > 0 {
      ColumnClosed(x, sx, c - 1);
      AddStep(x, sx, (c - 1) as real, Column(x, sx, c - 1));
    }
  }

  /** The first a columns of an n-row grid, column after column: column c
      (from 1) is n copies of Column(x, sx, c). */
  function ColumnMajor(n: nat, a: nat, x: real, sx: real): seq<real>
  {
    if a == 0 then [] else ColumnMajor(n, a - 1, x, sx) + Copies(n, Column(x, sx, a))
  }

  /** Column(x, sx, 1) + ... + Column(x, sx, a). */
  function ColumnValues(a: nat, x: real, sx: real): real
  {
    if a == 0 then 0.0 else ColumnValues(a - 1, x, sx) + Column(x, sx, a)
  }

  /** The sums of the first a columns of ColumnMajor, added up column by
      column: column c adds up to n times its value. */
  function BlockTotals(n: nat, a: nat, x: real, sx: real): real
  {
    if a == 0 then 0.0 else BlockTotals(n, a - 1, x, sx) + Times(n, Column(x, sx, a))
  }

  lemma {:induction false} ColumnMajorSum(n: nat, a: nat, x: real, sx: real)
    ensures Sum(ColumnMajor(n, a, x, sx)) == BlockTotals(n, a, x, sx)
  {
    if a > 0 {
      var v := Column(x, sx, a);
      var prefix, column := ColumnMajor(n, a - 1, x, sx), Copies(n, v);
      ColumnMajorSum(n, a - 1, x, sx);
      SumAppend(prefix, column);
      CopiesSum(n, v);
      assert Sum(ColumnMajor(n, a, x, sx)) == Sum(prefix) + Sum(column);
      TimesClosed(n, v);
    }
  }

  lemma Distribute(n: real, s: real, v: real, prev: real, block: real)
    requires prev == n * s && block == n * v
    ensures prev + block == n * (s + v)
  {
  }

  lemma {:induction false} BlockTotalsScaled(n: nat, a: nat, x: real, sx: real)
    ensures BlockTotals(n, a, x, sx) == (n as real) * ColumnValues(a, x, sx)
  {
    if a > 0 {
      BlockTotalsScaled(n, a - 1, x, sx);
      var v := Column(x, sx, a);
      TimesClosed(n, v);
      Distribute(n as real, ColumnValues(a - 1, x, sx), v, BlockTotals(n, a - 1, x, sx), Times(n, v));
    }
  }

  lemma ValuesStep(x: real, sx: real, a: real, prev: real, v: real)
    requires 2.0 * prev == (a - 1.0) * (2.0 * x + a * sx) && v == x + a * sx
    ensures 2.0 * (prev + v) == a * (2.0 * x + (a + 1.0) * sx)
  {
  }

  lemma {:induction false} ColumnValuesClosed(a: nat, x: real, sx: real)
    ensures 2.0 * ColumnValues(a, x, sx) == (a as real) * (2.0 * x + ((a + 1) as real) * sx)
  {
    if a > 0 {
      ColumnValuesClosed(a - 1, x, sx);
      ColumnClosed(x, sx, a);
      ValuesStep(x, sx, a as real, ColumnValues(a - 1, x, sx), Column(x, sx, a));
    }
  }

  lemma {:induction false} ColumnMajorAt(n: nat, a: nat, x: real, sx: real)
    requires n >= 1
    ensures |ColumnMajor(n, a, x, sx)| == a * n
    ensures forall k :: 0 <= k < a * n ==> ColumnMajor(n, a, x, sx)[k] == Column(x, sx, k / n + 1)
  {
    if a > 0 {
      ColumnMajorAt(n, a - 1, x, sx);
      MulSucc(a - 1, n);
      var xs := ColumnMajor(n, a, x, sx);
      forall k | 0 <= k < a * n
        ensures xs[k] == Column(x, sx, k / n + 1)
      {
        if k >= (a - 1) * n {
          BlockIndex(a - 1, n, k);
        }
      }
    }
  }

  /** a columns that all hold the values col, one after the other. */
  function Repeated(a: nat, col: seq<real>): seq<real>
  {
    if a == 0 then [] else Repeated(a - 1, col) + col
  }

  lemma ScaleStep(s: real, prev: real, c: real, a: real)
    requires prev == (a - 1.0) * c && s == prev + c
    ensures s == a * c
  {
  }

  lemma {:induction false} RepeatedSum(a: nat, col: seq<real>)
    ensures Sum(Repeated(a, col)) == (a as real) * Sum(col)
  {
    if a > 0 {
      RepeatedSum(a - 1, col);
      SumAppend(Repeated(a - 1, col), col);
      ScaleStep(Sum(Repeated(a, col)), Sum(Repeated(a - 1, col)), Sum(col), a as real);
    }
  }

  lemma {:induction false} RepeatedAt(a: nat, col: seq<real>)
    requires |col| >= 1
    ensures |Repeated(a, col)| == a * |col|
    ensures forall k :: 0 <= k < a * |col| ==> Repeated(a, col)[k] == col[k % |col|]
  {
    if a > 0 {
      var n := |col|;
      RepeatedAt(a - 1, col);
      MulSucc(a - 1, n);
      var ys := Repeated(a, col);
      forall k | 0 <= k < a * n
        ensures ys[k] == col[k % n]
      {
        if k >= (a - 1) * n {
          BlockIndex(a - 1, n, k);
        }
      }
    }
  }

  lemma DivOf(t: real, d: real, v: real)
    requires d > 0.0 && t == d * v
    ensures t / d == v
  {
  }

  /** The mean of n blocks whose values sum to n * vals, where
      2 * vals == n * (2 * x + f * sx). */
  lemma CentroidAlgebra(x: real, sx: real, n: nat, f: real, count: nat, total: real, vals: real)
    requires n >= 1 && count == n * n && f == (n + 1) as real
    requires total == (n as real) * vals
    requires 2.0 * vals == (n as real) * (2.0 * x + ((n + 1) as real) * sx)
    ensures count > 0 && total / (count as real) == x + f * sx / 2.0
  {
    MulMonotone(1, n, n);
    CastSquare(n);
    var c := count as real;
    assert 2.0 * total == c * (2.0 * x + f * sx);
    DivOf(total, c, x + f * sx / 2.0);
  }

  lemma CastSquare(n: int)
    ensures (n * n) as real == (n as real) * (n as real)
  {
  }

  lemma CastScaled(q: int, f: int)
    ensures (q * f) as real == (f as real) * (q as real)
  {
  }

  lemma CastColumn(x: int, a: int, s: int)
    ensures (x + a * s) as real == (x as real) + (a as real) * (s as real)
  {
  }

  /** Point k of the grid as reals: it sits in column k / n + 1 and row
      k % n + 1 of the n-by-n interior grid. */
  lemma GridCoordinate(roi: Roi, factor: int, n: nat, k: int)
    requires factor > 1 && n == factor - 1 && 0 <= k < |Grid(roi, factor)|
    ensures Xs(ToPoints(Grid(roi, factor)))[k]
         == (roi.x as real) + ((k / n + 1) as real) * ((roi.w / factor) as real)
    ensures Ys(ToPoints(Grid(roi, factor)))[k]
         == (roi.y as real) + ((k % n + 1) as real) * ((roi.h / factor) as real)
  {
    assert Grid(roi, factor)[k] == GridPoint(roi, roi.w / factor, roi.h / factor, n, k);
    CastColumn(roi.x, k / n + 1, roi.w / factor);
    CastColumn(roi.y, k % n + 1, roi.h / factor);
  }

  lemma GridColumnAt(roi: Roi, factor: int, n: nat, k: int)
    requires factor > 1 && n == factor - 1 && 0 <= k < |Grid(roi, factor)|
    ensures Xs(ToPoints(Grid(roi, factor)))[k] == Column(roi.x as real, (roi.w / factor) as real, k / n + 1)
  {
    GridCoordinate(roi, factor, n, k);
    ColumnClosed(roi.x as real, (roi.w / factor) as real, k / n + 1);
  }

  lemma GridRowAt(roi: Roi, factor: int, n: nat, k: int)
    requires factor > 1 && n == factor - 1 && 0 <= k < |Grid(roi, factor)|
    ensures Ys(ToPoints(Grid(roi, factor)))[k] == Column(roi.y as real, (roi.h / factor) as real, k % n + 1)
  {
    GridCoordinate(roi, factor, n, k);
    ColumnClosed(roi.y as real, (roi.h / factor) as real, k % n + 1);
  }

  lemma GridColumns(roi: Roi, factor: int, n: nat)
    requires factor > 1 && n == factor - 1
    ensures |Xs(ToPoints(Grid(roi, factor)))| == n * n
    ensures forall k :: 0 <= k < n * n ==>
      Xs(ToPoints(Grid(roi, factor)))[k] == Column(roi.x as real, (roi.w / factor) as real, k / n + 1)
  {
    GridAt(roi, factor, 1, 1);
    forall k | 0 <= k < n * n
      ensures Xs(ToPoints(Grid(roi, factor)))[k] == Column(roi.x as real, (roi.w / factor) as real, k / n + 1)
    {
      GridColumnAt(roi, factor, n, k);
    }
  }

  lemma GridRows(roi: Roi, factor: int, n: nat)
    requires factor > 1 && n == factor - 1
    ensures |Ys(ToPoints(Grid(roi, factor)))| == n * n
    ensures forall k :: 0 <= k < n * n ==>
      Ys(ToPoints(Grid(roi, factor)))[k] == Column(roi.y as real, (roi.h / factor) as real, k % n + 1)
  {
    GridAt(roi, factor, 1, 1);
    forall k | 0 <= k < n * n
      ensures Ys(ToPoints(Grid(roi, factor)))[k] == Column(roi.y as real, (roi.h / factor) as real, k % n + 1)
    {
      GridRowAt(roi, factor, n, k);
    }
  }

  /** Values whose point k is in column k / n + 1 are the column-major layout
      ColumnMajor(n, n, x, sx). */
  lemma ColumnLayout(xs: seq<real>, n: nat, x: real, sx: real)
    requires n >= 1 && |xs| == n * n
    requires forall k :: 0 <= k < n * n ==> xs[k] == Column(x, sx, k / n + 1)
    ensures xs == ColumnMajor(n, n, x, sx)
  {
    ColumnMajorAt(n, n, x, sx);
  }

  /** Values whose point k is in row k % n + 1 repeat the column
      y + sy, ..., y + n * sy n times. */
  lemma RowLayout(ys: seq<real>, n: nat, y: real, sy: real)
    requires n >= 1 && |ys| == n * n
    requires forall k :: 0 <= k < n * n ==> ys[k] == Column(y, sy, k % n + 1)
    ensures ys == Repeated(n, Progression(y, sy, n))
  {
    var col := Progression(y, sy, n);
    RepeatedAt(n, col);
    forall k | 0 <= k < n * n
      ensures ys[k] == Repeated(n, col)[k]
    {
      assert Repeated(n, col)[k] == col[k % n];
      ColumnClosed(y, sy, k % n + 1);
    }
  }

  lemma {:induction false} ColumnMajorLength(n: nat, a: nat, x: real, sx: real)
    ensures |ColumnMajor(n, a, x, sx)| == a * n
  {
    if a > 0 {
      ColumnMajorLength(n, a - 1, x, sx);
      MulSucc(a - 1, n);
    }
  }

  lemma {:induction false} RepeatedLength(a: nat, col: seq<real>)
    ensures |Repeated(a, col)| == a * |col|
  {
    if a > 0 {
      RepeatedLength(a - 1, col);
      MulSucc(a - 1, |col|);
    }
  }

  /** The n-by-n column-major layout has its centroid in the middle column. */
  lemma ColumnMajorMean(n: nat, x: real, sx: real, f: real)
    requires n >= 1 && f == (n + 1) as real
    ensures |ColumnMajor(n, n, x, sx)| > 0 && Mean(ColumnMajor(n, n, x, sx)) == x + f * sx / 2.0
  {
    var xs := ColumnMajor(n, n, x, sx);
    ColumnMajorLength(n, n, x, sx);
    ColumnMajorSum(n, n, x, sx);
    BlockTotalsScaled(n, n, x, sx);
    ColumnValuesClosed(n, x, sx);
    CentroidAlgebra(x, sx, n, f, |xs|, Sum(xs), ColumnValues(n, x, sx));
  }

  /** n copies of a column of n values that add up to n * (y + f * sy / 2)
      have that column's mean. */
  lemma RepeatedMean(n: nat, col: seq<real>, y: real, sy: real, f: real)
    requires n >= 1 && f == (n + 1) as real && |col| == n
    requires 2.0 * Sum(col) == (n as real) * (2.0 * y + ((n + 1) as real) * sy)
    ensures |Repeated(n, col)| > 0 && Mean(Repeated(n, col)) == y + f * sy / 2.0
  {
    var ys := Repeated(n, col);
    RepeatedLength(n, col);
    RepeatedSum(n, col);
    CentroidAlgebra(y, sy, n, f, |ys|, Sum(ys), Sum(col));
  }

  /** The mean of values laid out column by column: column c (from 1) at
      x + c * sx. */
  lemma ColumnsMean(xs: seq<real>, n: nat, x: real, sx: real, f: real)
    requires n >= 1 && f == (n + 1) as real && |xs| == n * n
    requires forall k :: 0 <= k < n * n ==> xs[k] == Column(x, sx, k / n + 1)
    ensures |xs| > 0 && Mean(xs) == x + f * sx / 2.0
  {
    ColumnLayout(xs, n, x, sx);
    ColumnMajorMean(n, x, sx, f);
  }

  /** The mean of values laid out row by row within each column: row r
      (from 1) at y + r * sy. */
  lemma RowsMean(ys: seq<real>, n: nat, y: real, sy: real, f: real)
    requires n >= 1 && f == (n + 1) as real && |ys| == n * n
    requires forall k :: 0 <= k < n * n ==> ys[k] == Column(y, sy, k % n + 1)
    ensures |ys| > 0 && Mean(ys) == y + f * sy / 2.0
  {
    RowLayout(ys, n, y, sy);
    SumProgression(y, sy, n);
    RepeatedMean(n, Progression(y, sy, n), y, sy, f);
  }

  /** The grid's centroid across: x + factor * (w // factor) / 2. */
  lemma GridCentroidX(roi: Roi, factor: int, n: nat)
    requires factor > 1 && n == factor - 1
    ensures |Xs(ToPoints(Grid(roi, factor)))| > 0
    ensures Mean(Xs(ToPoints(Grid(roi, factor))))
         == (roi.x as real) + (factor as real) * ((roi.w / factor) as real) / 2.0
  {
    GridColumns(roi, factor, n);
    ColumnsMean(Xs(ToPoints(Grid(roi, factor))), n, roi.x as real, (roi.w / factor) as real, factor as real);
  }

  /** The grid's centroid down: y + factor * (h // factor) / 2. */
  lemma GridCentroidY(roi: Roi, factor: int, n: nat)
    requires factor > 1 && n == factor - 1
    ensures |Ys(ToPoints(Grid(roi, factor)))| > 0
    ensures Mean(Ys(ToPoints(Grid(roi, factor))))
         == (roi.y as real) + (factor as real) * ((roi.h / factor) as real) / 2.0
  {
    GridRows(roi, factor, n);
    RowsMean(Ys(ToPoints(Grid(roi, factor))), n, roi.y as real, (roi.h / factor) as real, factor as real);
  }

  /** A static scene under the local strategy: with at least four grid points
      (factor >= 3) the estimate is the integer centre minus the grid centroid,
      (w // 2 - factor * (w // factor) / 2, h // 2 - factor * (h // factor) / 2). */
  lemma StaticLocalShift(roi: Roi, factor: int)
    requires factor >= 3
    ensures EstimateLocal(roi, StaticResult(roi, factor))
         == Some(Shift(((roi.w / 2) as real) - (factor as real) * ((roi.w / factor) as real) / 2.0,
                       ((roi.h / 2) as real) - (factor as real) * ((roi.h / factor) as real) / 2.0))
  {
    var t := StaticResult(roi, factor);
    assert Found(t.points, t.status) == t.points by {
      FoundAll(t.points, t.status);
    }
    assert multiset(t.status)[1] >= 4 by {
      GridAt(roi, factor, 1, 1);
      MulMonotone(2, factor - 1, factor - 1);
      ConstantMultiset(t.status);
    }
    GridCentroidX(roi, factor, factor - 1);
    GridCentroidY(roi, factor, factor - 1);
  }

  lemma {:induction false} ConstantMultiset(s: seq<Flag>)
    requires forall k :: 0 <= k < |s| ==> s[k] == 1
    ensures multiset(s) == multiset{} [1 := |s|]
  {
    if s != [] {
      assert s == [s[0]] + s[1..];
      ConstantMultiset(s[1..]);
    }
  }

  /** Any 10-by-10 region sampled with factor 4 (grid step 2, points at 2, 4
      and 6 from its corner, centroid 4) is anchored at 5: a static scene is
      shifted by one pixel on each axis. */
  lemma StaticSceneIsShifted(roi: Roi)
    requires roi.w == 10 && roi.h == 10
    ensures EstimateLocal(roi, StaticResult(roi, 4)) == Some(Shift(1.0, 1.0))
  {
    StaticLocalShift(roi, 4);
    assert roi.w / 2 == 5 && roi.w / 4 == 2;
    assert roi.h / 2 == 5 && roi.h / 4 == 2;
  }

  /** The static shift vanishes exactly when the extent is even and a multiple
      of factor, or odd and one more than a multiple of it. */
  lemma StaticShiftZero(extent: int, factor: int)
    requires factor >= 3 && extent >= 0
    ensures ((extent / 2) as real) - (factor as real) * ((extent / factor) as real) / 2.0 == 0.0
        <==> (extent % 2 == 0 && extent % factor == 0) || (extent % 2 == 1 && extent % factor == 1)
  {
    var q, r := extent / factor, extent % factor;
    assert extent == q * factor + r;
    assert extent == 2 * (extent / 2) + extent % 2;
    CastScaled(q, factor);
  }
}
