/** Sampled curve points (the `Coordinates` interface of the chart code) and the
    index searches the core performs over point lists. */
module Points {

  /** One sample of a discretised density curve. */
  datatype Coord = Coord(x: real, y: real)

  /** `Array.prototype.findIndex`: the first position whose point satisfies `p`, or -1. */
  function FindIndex(points: seq<Coord>, p: Coord -> bool): (r: int)
    ensures -1 <= r < |points|
    ensures r == -1 <==> forall k :: 0 <= k < |points| ==> !p(points[k])
    ensures 0 <= r ==> p(points[r]) && forall k :: 0 <= k < r ==> !p(points[k])
  {
    if |points| == 0 then -1
    else if p(points[0]) then 0
    else
      var r := FindIndex(points[1..], p);
      if r == -1 then -1 else r + 1
  }

  /** The first position whose `x` equals `x` exactly, or -1. */
  function MatchIndex(points: seq<Coord>, x: real): int
  {
    FindIndex(points, (pt: Coord) => pt.x == x)
  }

  /** The first position whose `x` lies strictly right of `x`, or -1. */
  function IndexBeyond(points: seq<Coord>, x: real): int
  {
    FindIndex(points, (pt: Coord) => pt.x > x)
  }

  /** `x` never decreases along the list. */
  predicate Ascending(points: seq<Coord>)
  {
    forall i, j :: 0 <= i < j < |points| ==> points[i].x <= points[j].x
  }

  /** `x` strictly increases along the list, so every `x` occurs once. */
  predicate StrictlyAscending(points: seq<Coord>)
  {
    forall i, j :: 0 <= i < j < |points| ==> points[i].x < points[j].x
  }

  function Min(a: real, b: real): real { if a <= b then a else b }

  function Max(a: real, b: real): real { if a <= b then b else a }

  /** `c` lies in the axis-parallel box spanned by `p` and `q`. */
  predicate InBox(c: Coord, p: Coord, q: Coord)
  {
    Min(p.x, q.x) <= c.x <= Max(p.x, q.x) && Min(p.y, q.y) <= c.y <= Max(p.y, q.y)
  }
}
