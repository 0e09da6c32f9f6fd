/** Trapezoid-rule integration of a sampled curve, `trapezoidArea`, `areaUnder` and
    `truncatedAreaUnder` in src/app/app.component.ts. The sign conventions are the
    source's: inside the loops a segment's width is `x_i - x_{i+1}` (negative for
    ascending `x`), while the two boundary trapezoids use positive widths. */
module Areas {
  import opened Wrappers
  import opened Points

  /** The area of a trapezoid of width `h` with parallel sides `a` and `b`; its sign
      is the sign of the width for non-negative sides. */
  function TrapezoidArea(a: real, b: real, h: real): (r: real)
    ensures h == 0.0 ==> r == 0.0
    ensures 0.0 <= a + b && 0.0 <= h ==> 0.0 <= r
    ensures 0.0 <= a + b && h <= 0.0 ==> r <= 0.0
  {
    0.5 * h * (a + b)
  }

  /** The trapezoid the loops add for the segment from point `i` to point `i + 1`. */
  function Segment(points: seq<Coord>, i: int): real
    requires 0 <= i < |points| - 1
  {
    TrapezoidArea(points[i].y, points[i + 1].y, points[i].x - points[i + 1].x)
  }

  /** The loops' sum over the segments `lo .. hi-1`. */
  function SegmentsSum(points: seq<Coord>, lo: int, hi: int): real
    requires 0 <= lo <= hi < |points|
    decreases hi - lo
  {
    if lo == hi then 0.0 else SegmentsSum(points, lo, hi - 1) + Segment(points, hi - 1)
  }

  /** The value of `areaUnder`: the sum over every segment of the curve. */
  function WholeArea(points: seq<Coord>): real
  {
    if |points| == 0 then 0.0 else SegmentsSum(points, 0, |points| - 1)
  }

  /** The value of `truncatedAreaUnder`, with `k` the first point strictly right of the
      crossing. Toward the left: a trapezoid from point `k-1` to the crossing plus the
      segments before `k-1`; toward the right: a trapezoid from the crossing to point `k`
      plus the segments from `k` to the end. A missing point is the dereference of an
      undefined slot. */
  function TruncatedArea(points: seq<Coord>, cross: Coord, toLeft: bool): Result<real>
  {
    var k := IndexBeyond(points, cross.x);
    if toLeft then
      var lastIndex := k - 1;
      if lastIndex < 0 then UndefinedIndex(lastIndex)
      else Ok(TrapezoidArea(cross.y, points[lastIndex].y, cross.x - points[lastIndex].x) +
              SegmentsSum(points, 0, lastIndex))
    else
      if k < 0 then UndefinedIndex(k)
      else Ok(TrapezoidArea(cross.y, points[k].y, points[k].x - cross.x) +
              SegmentsSum(points, k, |points| - 1))
  }

  method AreaUnder(points: seq<Coord>) returns (area: real)
    ensures area == WholeArea(points)
  {
    area := 0.0;
    var i := 0;
    while i < |points| - 1
      invariant 0 <= i && (|points| == 0 ==> i == 0) && (|points| > 0 ==> i <= |points| - 1)
      invariant area == if |points| == 0 then 0.0 else SegmentsSum(points, 0, i)
    {
      area := area + TrapezoidArea(points[i].y, points[i + 1].y, points[i].x - points[i + 1].x);
      i := i + 1;
    }
  }

  method TruncatedAreaUnder(points: seq<Coord>, cross: Coord, toLeft: bool) returns (r: Result<real>)
    ensures r == TruncatedArea(points, cross, toLeft)
  {
    var area := 0.0;
    if toLeft {
      var lastIndex := IndexBeyond(points, cross.x) - 1;
      if lastIndex < 0 {
        return UndefinedIndex(lastIndex);
      }
      area := area + TrapezoidArea(cross.y, points[lastIndex].y, cross.x - points[lastIndex].x);
      ghost var boundary := area;
      for i := 0 to lastIndex
        invariant area == boundary + SegmentsSum(points, 0, i)
      {
        area := area + TrapezoidArea(points[i].y, points[i + 1].y, points[i].x - points[i + 1].x);
      }
    } else {
      var firstIndex := IndexBeyond(points, cross.x);
      if firstIndex < 0 {
        return UndefinedIndex(firstIndex);
      }
      area := area + TrapezoidArea(cross.y, points[firstIndex].y, points[firstIndex].x - cross.x);
      ghost var boundary := area;
      for i := firstIndex to |points| - 1
        invariant area == boundary + SegmentsSum(points, firstIndex, i)
      {
        area := area + TrapezoidArea(points[i].y, points[i + 1].y, points[i].x - points[i + 1].x);
      }
    }
    return Ok(area);
  }

  /** Summing `lo..mid-1` and then `mid..hi-1` is summing `lo..hi-1`. */
  lemma {:induction false} SegmentsSumSplit(points: seq<Coord>, lo: int, mid: int, hi: int)
    requires 0 <= lo <= mid <= hi < |points|
    ensures SegmentsSum(points, lo, hi) == SegmentsSum(points, lo, mid) + SegmentsSum(points, mid, hi)
    decreases hi - mid
  {
    if mid < hi {
      SegmentsSumSplit(points, lo, mid, hi - 1);
    }
  }

  /** A curve of fewer than two points has no area. */
  lemma WholeAreaOfShortCurve(points: seq<Coord>)
    requires |points| < 2
    ensures WholeArea(points) == 0.0
  {
  }

  lemma {:induction false} SegmentsSumNonPositive(points: seq<Coord>, lo: int, hi: int)
    requires 0 <= lo <= hi < |points|
    requires Ascending(points)
    requires forall k :: 0 <= k < |points| ==> points[k].y >= 0.0
    ensures SegmentsSum(points, lo, hi) <= 0.0
    decreases hi - lo
  {
    if lo < hi {
      SegmentsSumNonPositive(points, lo, hi - 1);
    }
  }

  /** Because every loop width is `x_i - x_{i+1}`, a curve with ascending `x` and
      non-negative `y` has a non-positive area. */
  lemma WholeAreaNonPositive(points: seq<Coord>)
    requires Ascending(points)
    requires forall k :: 0 <= k < |points| ==> points[k].y >= 0.0
    ensures WholeArea(points) <= 0.0
  {
    if |points| > 0 {
      SegmentsSumNonPositive(points, 0, |points| - 1);
    }
  }

  /** The single trapezoid from (0, 0) to (2, 4) has width 0 - 2, so area -4. */
  lemma WholeAreaExample()
    ensures WholeArea([Coord(0.0, 0.0), Coord(2.0, 4.0)]) == -4.0
  {
  }

  /** Truncation toward the left needs a point right of the crossing at a position
      of at least 1; toward the right it needs a point right of the crossing. The
      failing read is `points[-2]` or `points[-1]`. */
  lemma TruncationDefinedness(points: seq<Coord>, cross: Coord)
    ensures TruncatedArea(points, cross, false).Ok? <==>
            exists k :: 0 <= k < |points| && points[k].x > cross.x
    ensures TruncatedArea(points, cross, true).Ok? <==>
            |points| > 0 && points[0].x <= cross.x &&
            exists k :: 0 <= k < |points| && points[k].x > cross.x
    ensures TruncatedArea(points, cross, true).UndefinedIndex? ==>
            TruncatedArea(points, cross, true).index in {-2, -1}
    ensures TruncatedArea(points, cross, false).UndefinedIndex? ==>
            TruncatedArea(points, cross, false).index == -1
  {
    var k := IndexBeyond(points, cross.x);
    if k == -1 {
      assert forall m :: 0 <= m < |points| ==> !(points[m].x > cross.x);
    }
  }

  /** Where the truncations are defined, their boundary widths are `cross.x - x_{k-1} >= 0`
      and `x_k - cross.x > 0`, whatever the order of the points. */
  lemma BoundaryWidths(points: seq<Coord>, cross: Coord)
    ensures var k := IndexBeyond(points, cross.x);
      (1 <= k ==> cross.x - points[k - 1].x >= 0.0) &&
      (0 <= k ==> points[k].x - cross.x > 0.0)
  {
  }

  /** The left loop sums segments `0..k-2`, the right loop segments `k..n-2`; with the
      straddling segment `k-1..k` these are exactly the segments of the whole area. */
  lemma {:induction false} TruncationDecomposition(points: seq<Coord>, cross: Coord)
    requires TruncatedArea(points, cross, true).Ok?
    ensures var k := IndexBeyond(points, cross.x);
      1 <= k < |points| &&
      TruncatedArea(points, cross, false).Ok? &&
      WholeArea(points) ==
        (TruncatedArea(points, cross, true).value -
         TrapezoidArea(cross.y, points[k - 1].y, cross.x - points[k - 1].x)) +
        Segment(points, k - 1) +
        (TruncatedArea(points, cross, false).value -
         TrapezoidArea(cross.y, points[k].y, points[k].x - cross.x))
  {
    var k := IndexBeyond(points, cross.x);
    var n := |points|;
    SegmentsSumSplit(points, 0, k - 1, n - 1);
    SegmentsSumSplit(points, k - 1, k, n - 1);
  }

  /** The two truncations need not add up to the whole area: for (0, 1), (2, 1) cut at
      (1, 1) each side is 1 while the whole area is -2. */
  lemma TruncationsNotAdditive()
    ensures TruncatedArea([Coord(0.0, 1.0), Coord(2.0, 1.0)], Coord(1.0, 1.0), true) == Ok(1.0)
    ensures TruncatedArea([Coord(0.0, 1.0), Coord(2.0, 1.0)], Coord(1.0, 1.0), false) == Ok(1.0)
    ensures WholeArea([Coord(0.0, 1.0), Coord(2.0, 1.0)]) == -2.0
  {
    var points := [Coord(0.0, 1.0), Coord(2.0, 1.0)];
    assert IndexBeyond(points, 1.0) == 1 by {
      assert !(points[0].x > 1.0) && points[1].x > 1.0;
    }
  }
}
