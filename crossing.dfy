/** The crossing search, `crossCoordinates` in src/app/app.component.ts: the first
    place, scanning the first curve left to right, where the curves swap order at
    a shared `x`, resolved to the exact crossing of the two segments ending there. */
module CrossSearch {
  import opened Wrappers
  import opened Points
  import opened Segments

  /** The reference sign of the flip test: which curve's domain starts further left. */
  function FirstBigger(first: seq<Coord>, second: seq<Coord>): bool
    requires |first| > 0 && |second| > 0
  {
    first[0].x < second[0].x
  }

  /** Position `i` of `first` is where the scan stops: `second` has a point with the same
      `x`, the first such point has a predecessor, and the flip test fires there. */
  predicate IsCandidate(first: seq<Coord>, second: seq<Coord>, i: int)
    requires |first| > 0 && |second| > 0
  {
    1 <= i < |first| &&
    var j := MatchIndex(second, first[i].x);
    1 <= j && FirstBigger(first, second) != (first[i].y > second[j].y)
  }

  /** What the scan returns when it stops at candidate `i`. */
  function CandidateResult(first: seq<Coord>, second: seq<Coord>, i: int): Option<Coord>
    requires |first| > 0 && |second| > 0 && IsCandidate(first, second, i)
  {
    var j := MatchIndex(second, first[i].x);
    Intersect(first[i - 1], first[i], second[j - 1], second[j])
  }

  /** The scan from position `i` onwards. */
  function Scan(first: seq<Coord>, second: seq<Coord>, i: int): Option<Coord>
    requires |first| > 0 && |second| > 0 && 1 <= i <= |first|
    decreases |first| - i
  {
    if i == |first| then None
    else if IsCandidate(first, second, i) then CandidateResult(first, second, i)
    else Scan(first, second, i + 1)
  }

  /** The crossing the search reports; `None` when either curve is empty. */
  function Crossing(first: seq<Coord>, second: seq<Coord>): Option<Coord>
  {
    if |first| == 0 || |second| == 0 then None else Scan(first, second, 1)
  }

  /** The search as the source performs it: a loop over `first` with a `findIndex`
      into `second`, `continue` on no match or no predecessor, and an early return. */
  method CrossCoordinates(first: seq<Coord>, second: seq<Coord>) returns (cross: Option<Coord>)
    ensures cross == Crossing(first, second)
  {
    if |first| == 0 || |second| == 0 {
      return None;
    }
    var firstBigger := first[0].x < second[0].x;
    for i := 1 to |first|
      invariant Scan(first, second, i) == Crossing(first, second)
    {
      var secondIndex := MatchIndex(second, first[i].x);
      if secondIndex == -1 {
        continue;
      }
      var firstFrom, firstTo := first[i - 1], first[i];
      if firstBigger != (firstTo.y > second[secondIndex].y) {
        // `second[secondIndex - 1]` is `undefined` when the match is the first point
        if secondIndex == 0 {
          continue;
        }
        var secondFrom, secondTo := second[secondIndex - 1], second[secondIndex];
        return Intersect(firstFrom, firstTo, secondFrom, secondTo);
      }
    }
    return None;
  }

  lemma {:induction false} ScanStopsAtFirstCandidate(first: seq<Coord>, second: seq<Coord>, from: int, i: int)
    requires |first| > 0 && |second| > 0 && 1 <= from <= i
    requires IsCandidate(first, second, i)
    requires forall k :: from <= k < i ==> !IsCandidate(first, second, k)
    ensures Scan(first, second, from) == CandidateResult(first, second, i)
    decreases i - from
  {
    if from < i {
      ScanStopsAtFirstCandidate(first, second, from + 1, i);
    }
  }

  lemma {:induction false} ScanWithoutCandidate(first: seq<Coord>, second: seq<Coord>, from: int)
    requires |first| > 0 && |second| > 0 && 1 <= from <= |first|
    requires forall k :: from <= k < |first| ==> !IsCandidate(first, second, k)
    ensures Scan(first, second, from) == None
    decreases |first| - from
  {
    if from < |first| {
      ScanWithoutCandidate(first, second, from + 1);
    }
  }

  lemma {:induction false} ScanResultIsCandidate(first: seq<Coord>, second: seq<Coord>, from: int)
    requires |first| > 0 && |second| > 0 && 1 <= from <= |first|
    requires Scan(first, second, from).Some?
    ensures exists i :: from <= i < |first| && IsCandidate(first, second, i) &&
                        Scan(first, second, from) == CandidateResult(first, second, i)
    decreases |first| - from
  {
    if !IsCandidate(first, second, from) {
      ScanResultIsCandidate(first, second, from + 1);
    }
  }

  /** At the first candidate the search returns that candidate's intersection as it
      is, `None` included, and looks no further. */
  lemma CrossingAtFirstCandidate(first: seq<Coord>, second: seq<Coord>, i: int)
    requires |first| > 0 && |second| > 0 && IsCandidate(first, second, i)
    requires forall k :: 1 <= k < i ==> !IsCandidate(first, second, k)
    ensures Crossing(first, second) == CandidateResult(first, second, i)
  {
    ScanStopsAtFirstCandidate(first, second, 1, i);
  }

  /** Without any candidate there is no crossing. */
  lemma CrossingWithoutCandidate(first: seq<Coord>, second: seq<Coord>)
    requires |first| > 0 && |second| > 0
    requires forall k :: 1 <= k < |first| ==> !IsCandidate(first, second, k)
    ensures Crossing(first, second) == None
  {
    ScanWithoutCandidate(first, second, 1);
  }

  /** `c` is the intersection of segment `i-1..i` of `first` with segment `j-1..j` of
      `second`, the two segments end at the same `x`, and `c` lies in both their boxes. */
  predicate CrossesAt(first: seq<Coord>, second: seq<Coord>, c: Coord, i: int, j: int)
  {
    1 <= i < |first| && 1 <= j < |second| && first[i].x == second[j].x &&
    Intersect(first[i - 1], first[i], second[j - 1], second[j]) == Some(c) &&
    InBox(c, first[i - 1], first[i]) && InBox(c, second[j - 1], second[j])
  }

  /** A reported crossing comes from two segments of the curves that end at the same `x`. */
  lemma CrossingOnBothCurves(first: seq<Coord>, second: seq<Coord>)
    requires Crossing(first, second).Some?
    ensures exists i, j :: CrossesAt(first, second, Crossing(first, second).value, i, j)
  {
    ScanResultIsCandidate(first, second, 1);
    var i :| 1 <= i < |first| && IsCandidate(first, second, i) &&
             Scan(first, second, 1) == CandidateResult(first, second, i);
    var j := MatchIndex(second, first[i].x);
    IntersectionInBoxes(first[i - 1], first[i], second[j - 1], second[j]);
    assert CrossesAt(first, second, Crossing(first, second).value, i, j);
  }

  /** For ascending curves the crossing lies within the `x`-range both curves cover. */
  lemma CrossingInCommonRange(first: seq<Coord>, second: seq<Coord>)
    requires Ascending(first) && Ascending(second)
    requires Crossing(first, second).Some?
    ensures var c := Crossing(first, second).value;
      first[0].x <= c.x <= first[|first| - 1].x &&
      second[0].x <= c.x <= second[|second| - 1].x
  {
    var c := Crossing(first, second).value;
    CrossingOnBothCurves(first, second);
    var i, j :| CrossesAt(first, second, c, i, j);
    assert first[0].x <= first[i - 1].x && first[i].x <= first[|first| - 1].x;
    assert second[0].x <= second[j - 1].x && second[j].x <= second[|second| - 1].x;
  }

  /** Curves that share no `x` beyond the first point of `first` never cross. */
  lemma NoSharedXNoCrossing(first: seq<Coord>, second: seq<Coord>)
    requires forall i, k :: 1 <= i < |first| && 0 <= k < |second| ==> first[i].x != second[k].x
    ensures Crossing(first, second) == None
  {
    if |first| > 0 && |second| > 0 {
      forall k | 1 <= k < |first|
        ensures !IsCandidate(first, second, k)
      {
        assert MatchIndex(second, first[k].x) == -1;
      }
      CrossingWithoutCandidate(first, second);
    }
  }

  /** The first curve rises above the second between x = 0 and x = 1 and the scan
      stops there, at (0.5, 2). */
  lemma CrossingExample()
    ensures Crossing([Coord(0.0, 1.0), Coord(1.0, 3.0), Coord(2.0, 1.0)],
                     [Coord(0.0, 3.0), Coord(1.0, 1.0), Coord(2.0, 3.0)]) == Some(Coord(0.5, 2.0))
  {
    var first := [Coord(0.0, 1.0), Coord(1.0, 3.0), Coord(2.0, 1.0)];
    var second := [Coord(0.0, 3.0), Coord(1.0, 1.0), Coord(2.0, 3.0)];
    assert MatchIndex(second, 1.0) == 1 by {
      assert second[0].x != 1.0 && second[1].x == 1.0;
    }
    assert IsCandidate(first, second, 1);
    assert ParamA(first[0], first[1], second[0], second[1]) == 0.5;
    assert ParamB(first[0], first[1], second[0], second[1]) == 0.5;
    CrossingAtFirstCandidate(first, second, 1);
  }

  /** Curves over disjoint domains have no crossing. */
  lemma DisjointExample()
    ensures Crossing([Coord(0.0, 1.0), Coord(1.0, 2.0)], [Coord(5.0, 1.0), Coord(6.0, 2.0)]) == None
  {
    NoSharedXNoCrossing([Coord(0.0, 1.0), Coord(1.0, 2.0)], [Coord(5.0, 1.0), Coord(6.0, 2.0)]);
  }
}
