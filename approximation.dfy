/** Clamped linear interpolation over a point list, `getApproximatedByX` in
    src/app/app.component.ts. */
module Approximation {
  import opened Points

  /** Where `x` falls between `previous.x` and `current.x`, as a fraction of the segment. */
  function Ratio(previous: Coord, current: Coord, x: real): real
    requires previous.x != current.x
  {
    (x - previous.x) / (current.x - previous.x)
  }

  /** The `y` of the segment from `previous` to `current` at `x`. */
  function Interpolated(previous: Coord, current: Coord, x: real): real
    requires previous.x != current.x
  {
    previous.y + (current.y - previous.y) * Ratio(previous, current, x)
  }

  /** The point of the curve at `x`: `(0, 0)` for an empty list, the first point left of
      it, the last point when no later point lies right of `x`, and otherwise the
      interpolation on the segment ending at the first point right of `x`. */
  method GetApproximatedByX(x: real, data: seq<Coord>) returns (r: Coord)
    ensures |data| == 0 ==> r == Coord(0.0, 0.0)
    ensures |data| > 0 && x < data[0].x ==> r == data[0]
    ensures |data| > 0 && data[0].x <= x && IndexBeyond(data, x) == -1 ==> r == data[|data| - 1]
    ensures var i := IndexBeyond(data, x);
      |data| > 0 && data[0].x <= x && i != -1 ==>
        1 <= i && data[i - 1].x <= x < data[i].x && r == Coord(x, Interpolated(data[i - 1], data[i], x))
  {
    if |data| == 0 {
      return Coord(0.0, 0.0);
    }
    if x < data[0].x {
      return data[0];
    }
    for i := 1 to |data|
      invariant forall k :: 0 <= k < i ==> data[k].x <= x
    {
      if x < data[i].x {
        assert IndexBeyond(data, x) == i;
        var previous, current := data[i - 1], data[i];
        return Coord(x, previous.y + (current.y - previous.y) * ((x - previous.x) / (current.x - previous.x)));
      }
    }
    return data[|data| - 1];
  }

  lemma MulBounds(t: real, d: real)
    requires 0.0 <= t < 1.0
    ensures (0.0 <= d ==> 0.0 <= t * d <= d) && (d < 0.0 ==> d <= t * d <= 0.0)
  {
  }

  lemma DivBounds(n: real, w: real)
    requires 0.0 <= n < w
    ensures 0.0 <= n / w < 1.0
  {
  }

  /** On the segment the source interpolates, the ratio lies in [0, 1) and the
      result lies between the two endpoints' `y`. */
  lemma InterpolationBounds(previous: Coord, current: Coord, x: real)
    requires previous.x <= x < current.x
    ensures 0.0 <= Ratio(previous, current, x) < 1.0
    ensures Min(previous.y, current.y) <= Interpolated(previous, current, x) <= Max(previous.y, current.y)
  {
    var t := Ratio(previous, current, x);
    DivBounds(x - previous.x, current.x - previous.x);
    MulBounds(t, current.y - previous.y);
  }
}
