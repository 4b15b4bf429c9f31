/** The translation estimate of the local and global strategies
    (stabilizing.py:44-46, 66-74, 125-126, 149-157). */
module Translation {
  import opened Wrappers
  import opened Averages
  import opened Geometry

  /** The affine matrix [[1, 0, dx], [0, 1, dy]]: a pure translation. */
  datatype Shift = Shift(dx: real, dy: real)

  /** `status.sum()`. */
  function StatusSum(status: seq<Flag>): int
  {
    if status == [] then 0 else status[0] + StatusSum(status[1..])
  }

  /** Since every flag is 0 or 1, `status.sum()` counts the points found. */
  lemma {:induction false} StatusSumCountsFound(status: seq<Flag>)
    ensures StatusSum(status) == multiset(status)[1]
  {
    if status != [] {
      assert status == [status[0]] + status[1..];
      StatusSumCountsFound(status[1..]);
    }
  }

  /** `points[status == 1]`: the points whose flag is 1, in order. */
  function Found(points: seq<Point>, status: seq<Flag>): (found: seq<Point>)
    requires |points| == |status|
    ensures |found| == multiset(status)[1]
    ensures forall p :: p in found ==> p in points
  {
    if points == [] then []
    else
      assert status == [status[0]] + status[1..];
      (if status[0] == 1 then [points[0]] else []) + Found(points[1..], status[1..])
  }

  /** The boolean mask keeps exactly the points whose flag is 1, in their
      order: a point whose flag is 1 is found at the position that counts
      the flags equal to 1 before it. As these positions run through
      0 .. |found| - 1, this determines every point found. */
  lemma {:induction false} FoundAt(points: seq<Point>, status: seq<Flag>, k: int)
    requires |points| == |status| && 0 <= k < |status| && status[k] == 1
    ensures 0 <= StatusSum(status[..k]) < |Found(points, status)|
    ensures Found(points, status)[StatusSum(status[..k])] == points[k]
  {
    assert status == [status[0]] + status[1..];
    if k > 0 {
      FoundAt(points[1..], status[1..], k - 1);
      assert status[..k] == [status[0]] + status[1..][..k - 1];
    }
  }

  /** Conversely, every point found comes from a position whose flag is 1:
      the m-th point found is at the position preceded by m such flags. */
  lemma {:induction false} FoundFrom(points: seq<Point>, status: seq<Flag>, m: int) returns (k: int)
    requires |points| == |status| && 0 <= m < |Found(points, status)|
    ensures 0 <= k < |status| && status[k] == 1 && StatusSum(status[..k]) == m
    ensures Found(points, status)[m] == points[k]
  {
    assert status == [status[0]] + status[1..];
    if status[0] == 1 && m == 0 {
      k := 0;
    } else {
      var j := FoundFrom(points[1..], status[1..], m - status[0]);
      k := j + 1;
      assert status[..k] == [status[0]] + status[1..][..j];
    }
  }

  function Xs(ps: seq<Point>): (xs: seq<real>)
    ensures |xs| == |ps| && forall k :: 0 <= k < |ps| ==> xs[k] == ps[k].x
  {
    seq(|ps|, k requires 0 <= k < |ps| => ps[k].x)
  }

  function Ys(ps: seq<Point>): (ys: seq<real>)
    ensures |ys| == |ps| && forall k :: 0 <= k < |ps| ==> ys[k] == ps[k].y
  {
    seq(|ps|, k requires 0 <= k < |ps| => ps[k].y)
  }

  /** The image of the points under the shift (where warpAffine moves them). */
  function Apply(s: Shift, ps: seq<Point>): (qs: seq<Point>)
    ensures |qs| == |ps|
    ensures forall k :: 0 <= k < |ps| ==> qs[k] == Point(ps[k].x + s.dx, ps[k].y + s.dy)
  {
    seq(|ps|, k requires 0 <= k < |ps| => Point(ps[k].x + s.dx, ps[k].y + s.dy))
  }

  /** The integer centre (x + w // 2, y + h // 2) of a region. */
  function CentreX(roi: Roi): int { roi.x + roi.w / 2 }
  function CentreY(roi: Roi): int { roi.y + roi.h / 2 }

  /** A tracking step succeeds when `status.sum() >= 4`. */
  predicate Succeeds(t: Tracked)
  {
    StatusSum(t.status) >= 4
  }

  lemma SucceedsIffFourFound(t: Tracked)
    ensures Succeeds(t) <==> multiset(t.status)[1] >= 4
    ensures Succeeds(t) <==> |Found(t.points, t.status)| >= 4
  {
    StatusSumCountsFound(t.status);
  }

  /** Local strategy: the region centre minus the mean of the found points;
      None for a stall. */
  function EstimateLocal(roi: Roi, t: Tracked): (r: Option<Shift>)
    ensures r.Some? <==> multiset(t.status)[1] >= 4
  {
    SucceedsIffFourFound(t);
    if Succeeds(t) then
      var found := Found(t.points, t.status);
      Some(Shift(CentreX(roi) as real - Mean(Xs(found)), CentreY(roi) as real - Mean(Ys(found))))
    else
      None
  }

  /** Global strategy: the same estimate anchored at the centre of the whole
      width-by-height frame, plus the configured bias added every time. */
  function EstimateGlobal(width: int, height: int, shiftX: int, shiftY: int, t: Tracked): (r: Option<Shift>)
    ensures r.Some? <==> multiset(t.status)[1] >= 4
  {
    SucceedsIffFourFound(t);
    if Succeeds(t) then
      var found := Found(t.points, t.status);
      var centreX, centreY := 0 + width / 2, 0 + height / 2;
      var dx, dy := centreX as real - Mean(Xs(found)), centreY as real - Mean(Ys(found));
      Some(Shift(dx + shiftX as real, dy + shiftY as real))
    else
      None
  }

  /** The local estimate moves the centroid of the found points exactly onto
      the region's integer centre. */
  lemma LocalRecentres(roi: Roi, t: Tracked)
    requires EstimateLocal(roi, t).Some?
    ensures var found := Found(t.points, t.status);
      && |found| >= 4
      && Mean(Xs(Apply(EstimateLocal(roi, t).value, found))) == CentreX(roi) as real
      && Mean(Ys(Apply(EstimateLocal(roi, t).value, found))) == CentreY(roi) as real
  {
    var s := EstimateLocal(roi, t).value;
    var found := Found(t.points, t.status);
    assert Xs(Apply(s, found)) == Offset(Xs(found), s.dx);
    assert Ys(Apply(s, found)) == Offset(Ys(found), s.dy);
    MeanOffset(Xs(found), s.dx);
    MeanOffset(Ys(found), s.dy);
  }

  /** The global estimate is the local one for the region (0, 0, width,
      height), moved by the bias. */
  lemma GlobalIsBiasedLocal(width: int, height: int, shiftX: int, shiftY: int, t: Tracked)
    ensures EstimateGlobal(width, height, shiftX, shiftY, t)
         == match EstimateLocal(Roi(0, 0, width, height), t)
            case None => None
            case Some(s) => Some(Shift(s.dx + shiftX as real, s.dy + shiftY as real))
  {
  }

  /** The global estimate moves the centroid of the found points onto the
      frame centre moved by the bias. */
  lemma GlobalRecentres(width: int, height: int, shiftX: int, shiftY: int, t: Tracked)
    requires EstimateGlobal(width, height, shiftX, shiftY, t).Some?
    ensures var found := Found(t.points, t.status);
      var s := EstimateGlobal(width, height, shiftX, shiftY, t).value;
      && Mean(Xs(Apply(s, found))) == (width / 2 + shiftX) as real
      && Mean(Ys(Apply(s, found))) == (height / 2 + shiftY) as real
  {
    GlobalIsBiasedLocal(width, height, shiftX, shiftY, t);
    LocalRecentres(Roi(0, 0, width, height), t);
    var s := EstimateGlobal(width, height, shiftX, shiftY, t).value;
    var l := EstimateLocal(Roi(0, 0, width, height), t).value;
    var found := Found(t.points, t.status);
    assert Xs(Apply(s, found)) == Offset(Xs(Apply(l, found)), shiftX as real);
    assert Ys(Apply(s, found)) == Offset(Ys(Apply(l, found)), shiftY as real);
    MeanOffset(Xs(Apply(l, found)), shiftX as real);
    MeanOffset(Ys(Apply(l, found)), shiftY as real);
  }

  /** When the found points are already centred on the anchor, the local
      estimate is the zero shift and the global one is exactly the bias. */
  lemma CentredOnAnchor(roi: Roi, width: int, height: int, shiftX: int, shiftY: int, t: Tracked)
    requires multiset(t.status)[1] >= 4
    ensures var found := Found(t.points, t.status);
      Mean(Xs(found)) == CentreX(roi) as real && Mean(Ys(found)) == CentreY(roi) as real
      ==> EstimateLocal(roi, t) == Some(Shift(0.0, 0.0))
    ensures var found := Found(t.points, t.status);
      Mean(Xs(found)) == (width / 2) as real && Mean(Ys(found)) == (height / 2) as real
      ==> EstimateGlobal(width, height, shiftX, shiftY, t) == Some(Shift(shiftX as real, shiftY as real))
  {
  }
}
