/** Parametric intersection of two line segments, `intersect` in
    src/app/app.component.ts. */
module Segments {
  import opened Wrappers
  import opened Points

  /** The point at parameter `t` on the segment from `from` to `to`. */
  function PointAt(from: Coord, to: Coord, t: real): Coord
  {
    Coord(from.x + t * (to.x - from.x), from.y + t * (to.y - from.y))
  }

  /** The determinant of the two direction vectors; zero for parallel or collinear segments. */
  function Denominator(firstFrom: Coord, firstTo: Coord, secondFrom: Coord, secondTo: Coord): real
  {
    (secondTo.y - secondFrom.y) * (firstTo.x - firstFrom.x) -
    (secondTo.x - secondFrom.x) * (firstTo.y - firstFrom.y)
  }

  /** `ua`, the parameter of the crossing on the first segment (0 when the segments are parallel). */
  function ParamA(firstFrom: Coord, firstTo: Coord, secondFrom: Coord, secondTo: Coord): real
  {
    var d := Denominator(firstFrom, firstTo, secondFrom, secondTo);
    if d == 0.0 then 0.0
    else ((secondTo.x - secondFrom.x) * (firstFrom.y - secondFrom.y) -
          (secondTo.y - secondFrom.y) * (firstFrom.x - secondFrom.x)) / d
  }

  /** `ub`, the parameter of the crossing on the second segment (0 when the segments are parallel). */
  function ParamB(firstFrom: Coord, firstTo: Coord, secondFrom: Coord, secondTo: Coord): real
  {
    var d := Denominator(firstFrom, firstTo, secondFrom, secondTo);
    if d == 0.0 then 0.0
    else ((firstTo.x - firstFrom.x) * (firstFrom.y - secondFrom.y) -
          (firstTo.y - firstFrom.y) * (firstFrom.x - secondFrom.x)) / d
  }

  predicate InUnit(t: real) { 0.0 <= t <= 1.0 }

  /** The intersection of the segments `firstFrom-firstTo` and `secondFrom-secondTo`,
      evaluated on the first segment; `None` for a degenerate segment, for parallel
      or collinear segments, and when the lines cross outside either segment. */
  function Intersect(firstFrom: Coord, firstTo: Coord, secondFrom: Coord, secondTo: Coord): (r: Option<Coord>)
    ensures firstFrom == firstTo || secondFrom == secondTo ==> r == None
    ensures Denominator(firstFrom, firstTo, secondFrom, secondTo) == 0.0 ==> r == None
    ensures r.Some? ==>
      var ua := ParamA(firstFrom, firstTo, secondFrom, secondTo);
      var ub := ParamB(firstFrom, firstTo, secondFrom, secondTo);
      InUnit(ua) && InUnit(ub) &&
      r.value == PointAt(firstFrom, firstTo, ua) &&
      r.value == PointAt(secondFrom, secondTo, ub)
    ensures (firstFrom != firstTo && secondFrom != secondTo &&
             Denominator(firstFrom, firstTo, secondFrom, secondTo) != 0.0 &&
             InUnit(ParamA(firstFrom, firstTo, secondFrom, secondTo)) &&
             InUnit(ParamB(firstFrom, firstTo, secondFrom, secondTo))) ==> r.Some?
  {
    if firstFrom == firstTo || secondFrom == secondTo then None
    else
      var d := Denominator(firstFrom, firstTo, secondFrom, secondTo);
      if d == 0.0 then None
      else
        var ua := ParamA(firstFrom, firstTo, secondFrom, secondTo);
        var ub := ParamB(firstFrom, firstTo, secondFrom, secondTo);
        if ua < 0.0 || ua > 1.0 || ub < 0.0 || ub > 1.0 then None
        else
          SameCrossing(firstFrom, firstTo, secondFrom, secondTo);
          Some(PointAt(firstFrom, firstTo, ua))
  }

  /** Cancelling a non-zero factor. */
  lemma Cancel(u: real, v: real, d: real)
    requires d != 0.0 && u * d == v * d
    ensures u == v
  {
  }

  /** The `x` coordinate of the crossing: with `ua * den` and `ub * den` the two
      numerators, the first line at `ua` meets the second line at `ub`. */
  lemma XAgrees(a: real, b: real, c: real, d: real, e: real, f: real, ua: real, ub: real)
    requires d * a - c * b != 0.0
    requires ua * (d * a - c * b) == c * f - d * e
    requires ub * (d * a - c * b) == a * f - b * e
    ensures e + ua * a == ub * c
  {
    var den := d * a - c * b;
    calc {
      (e + ua * a) * den;
    ==
      e * den + a * (ua * den);
    ==
      e * (d * a - c * b) + a * (c * f - d * e);
    ==
      c * (a * f - b * e);
    ==
      c * (ub * den);
    ==
      (ub * c) * den;
    }
    Cancel(e + ua * a, ub * c, den);
  }

  /** The `y` coordinate of the crossing, likewise. */
  lemma YAgrees(a: real, b: real, c: real, d: real, e: real, f: real, ua: real, ub: real)
    requires d * a - c * b != 0.0
    requires ua * (d * a - c * b) == c * f - d * e
    requires ub * (d * a - c * b) == a * f - b * e
    ensures f + ua * b == ub * d
  {
    var den := d * a - c * b;
    calc {
      (f + ua * b) * den;
    ==
      f * den + b * (ua * den);
    ==
      f * (d * a - c * b) + b * (c * f - d * e);
    ==
      d * (a * f - b * e);
    ==
      d * (ub * den);
    ==
      (ub * d) * den;
    }
    Cancel(f + ua * b, ub * d, den);
  }

  /** The parameters times the denominator are the two numerators of lines 184-185. */
  lemma ParamsTimesDenominator(firstFrom: Coord, firstTo: Coord, secondFrom: Coord, secondTo: Coord)
    requires Denominator(firstFrom, firstTo, secondFrom, secondTo) != 0.0
    ensures var den := Denominator(firstFrom, firstTo, secondFrom, secondTo);
      ParamA(firstFrom, firstTo, secondFrom, secondTo) * den ==
        (secondTo.x - secondFrom.x) * (firstFrom.y - secondFrom.y) - (secondTo.y - secondFrom.y) * (firstFrom.x - secondFrom.x) &&
      ParamB(firstFrom, firstTo, secondFrom, secondTo) * den ==
        (firstTo.x - firstFrom.x) * (firstFrom.y - secondFrom.y) - (firstTo.y - firstFrom.y) * (firstFrom.x - secondFrom.x)
  {
  }

  /** Over the reals the crossing computed on the first segment also lies on the second. */
  lemma SameCrossing(firstFrom: Coord, firstTo: Coord, secondFrom: Coord, secondTo: Coord)
    requires Denominator(firstFrom, firstTo, secondFrom, secondTo) != 0.0
    ensures PointAt(firstFrom, firstTo, ParamA(firstFrom, firstTo, secondFrom, secondTo)) ==
            PointAt(secondFrom, secondTo, ParamB(firstFrom, firstTo, secondFrom, secondTo))
  {
    var ua, ub := ParamA(firstFrom, firstTo, secondFrom, secondTo), ParamB(firstFrom, firstTo, secondFrom, secondTo);
    ParamsTimesDenominator(firstFrom, firstTo, secondFrom, secondTo);
    var a, b := firstTo.x - firstFrom.x, firstTo.y - firstFrom.y;
    var c, d := secondTo.x - secondFrom.x, secondTo.y - secondFrom.y;
    var e, f := firstFrom.x - secondFrom.x, firstFrom.y - secondFrom.y;
    assert Denominator(firstFrom, firstTo, secondFrom, secondTo) == d * a - c * b;
    XAgrees(a, b, c, d, e, f, ua, ub);
    YAgrees(a, b, c, d, e, f, ua, ub);
    var p, q := PointAt(firstFrom, firstTo, ua), PointAt(secondFrom, secondTo, ub);
    assert p.x == firstFrom.x + ua * a && q.x == secondFrom.x + ub * c;
    assert p.y == firstFrom.y + ua * b && q.y == secondFrom.y + ub * d;
  }

  lemma MulNonNegative(u: real, v: real)
    requires 0.0 <= u && 0.0 <= v
    ensures 0.0 <= u * v
  {
  }

  /** One coordinate of a point at parameter `t` in [0, 1] lies between the endpoints. */
  lemma Between(p: real, q: real, t: real)
    requires InUnit(t)
    ensures Min(p, q) <= p + t * (q - p) <= Max(p, q)
  {
    if p <= q {
      MulNonNegative(t, q - p);
      MulNonNegative(1.0 - t, q - p);
      assert (q - p) - t * (q - p) == (1.0 - t) * (q - p);
    } else {
      MulNonNegative(t, p - q);
      MulNonNegative(1.0 - t, p - q);
      assert t * (q - p) == -(t * (p - q));
      assert t * (q - p) - (q - p) == (1.0 - t) * (p - q);
    }
  }

  /** A point at a parameter in [0, 1] lies in the box spanned by the segment's endpoints. */
  lemma PointAtInBox(from: Coord, to: Coord, t: real)
    requires InUnit(t)
    ensures InBox(PointAt(from, to, t), from, to)
  {
    Between(from.x, to.x, t);
    Between(from.y, to.y, t);
  }

  /** A crossing that `Intersect` reports lies within the boxes of both segments. */
  lemma {:induction false} IntersectionInBoxes(firstFrom: Coord, firstTo: Coord, secondFrom: Coord, secondTo: Coord)
    ensures var r := Intersect(firstFrom, firstTo, secondFrom, secondTo);
      r.Some? ==> InBox(r.value, firstFrom, firstTo) && InBox(r.value, secondFrom, secondTo)
  {
    if Intersect(firstFrom, firstTo, secondFrom, secondTo).Some? {
      PointAtInBox(firstFrom, firstTo, ParamA(firstFrom, firstTo, secondFrom, secondTo));
      PointAtInBox(secondFrom, secondTo, ParamB(firstFrom, firstTo, secondFrom, secondTo));
    }
  }

  /** `Intersect` misses no crossing of two non-parallel, non-degenerate segments:
      any point at parameters `s`, `t` in [0, 1] on both is the point it returns. */
  lemma {:induction false} IntersectFindsEveryCrossing(firstFrom: Coord, firstTo: Coord, secondFrom: Coord, secondTo: Coord, s: real, t: real)
    requires firstFrom != firstTo && secondFrom != secondTo
    requires Denominator(firstFrom, firstTo, secondFrom, secondTo) != 0.0
    requires InUnit(s) && InUnit(t)
    requires PointAt(firstFrom, firstTo, s) == PointAt(secondFrom, secondTo, t)
    ensures Intersect(firstFrom, firstTo, secondFrom, secondTo) == Some(PointAt(firstFrom, firstTo, s))
  {
    var a, b := firstTo.x - firstFrom.x, firstTo.y - firstFrom.y;
    var c, d := secondTo.x - secondFrom.x, secondTo.y - secondFrom.y;
    var e, f := firstFrom.x - secondFrom.x, firstFrom.y - secondFrom.y;
    var den := Denominator(firstFrom, firstTo, secondFrom, secondTo);
    assert den == d * a - c * b;
    var na, nb := c * f - d * e, a * f - b * e;
    // the two coordinate equations of the common point
    assert s * a - t * c == -e;
    assert s * b - t * d == -f;
    assert s * den == d * (s * a) - c * (s * b);
    assert s * den == na;
    assert t * den == a * (t * d) - b * (t * c);
    assert t * den == nb;
    var ua, ub := ParamA(firstFrom, firstTo, secondFrom, secondTo), ParamB(firstFrom, firstTo, secondFrom, secondTo);
    assert ua == na / den && ub == nb / den;
    assert ua * den == na && ub * den == nb;
    Cancel(s, ua, den);
    Cancel(t, ub, den);
  }
}
