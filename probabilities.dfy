/** The four error probabilities derived from the crossing, the orchestration part
    of `recalculate` in src/app/app.component.ts, as a pure function of the two curves. */
module Probabilities {
  import opened Wrappers
  import opened Points
  import opened Areas
  import opened CrossSearch

  /** A JavaScript number as far as the ratios can produce one: a real, or the
      infinity or NaN of a division by zero. */
  datatype Number = Finite(value: real) | PositiveInfinity | NegativeInfinity | NaN

  /** JavaScript's `a / b`. */
  function Divide(a: real, b: real): (q: Number)
    ensures q.Finite? <==> b != 0.0
    ensures q.Finite? ==> q.value * b == a
    ensures q == NaN <==> a == 0.0 && b == 0.0
    ensures b == 0.0 && a > 0.0 ==> q == PositiveInfinity
    ensures b == 0.0 && a < 0.0 ==> q == NegativeInfinity
  {
    if b != 0.0 then Finite(a / b)
    else if a > 0.0 then PositiveInfinity
    else if a < 0.0 then NegativeInfinity
    else NaN
  }

  /** The two fields of a `Probability` record. */
  datatype ErrorRates = ErrorRates(falseAlarm: Number, detectionSkip: Number)

  /** The values `recalculate` writes into the two records. */
  datatype Outcome = Outcome(first: ErrorRates, second: ErrorRates)

  const NoErrors := ErrorRates(Finite(0.0), Finite(0.0))

  /** The false-alarm and detection-skip zones, truncated in the order the source
      evaluates them; `firstPointGreater` is the orientation test of line 105. */
  function Zones(first: seq<Coord>, second: seq<Coord>, cross: Coord, firstPointGreater: bool): Result<(real, real)>
  {
    if firstPointGreater then
      match TruncatedArea(second, cross, true)
      case UndefinedIndex(k) => UndefinedIndex(k)
      case Ok(falseAlarmZone) =>
        match TruncatedArea(first, cross, false)
        case UndefinedIndex(k) => UndefinedIndex(k)
        case Ok(detectionSkipZone) => Ok((falseAlarmZone, detectionSkipZone))
    else
      match TruncatedArea(first, cross, false)
      case UndefinedIndex(k) => UndefinedIndex(k)
      case Ok(falseAlarmZone) =>
        match TruncatedArea(second, cross, true)
        case UndefinedIndex(k) => UndefinedIndex(k)
        case Ok(detectionSkipZone) => Ok((falseAlarmZone, detectionSkipZone))
  }

  /** The probabilities for the crossing `cross`: all zero without a crossing; otherwise
      each zone normalised by the first curve's whole area for the first record and,
      swapped, by the second curve's whole area for the second record. */
  function Derive(first: seq<Coord>, second: seq<Coord>, cross: Option<Coord>, firstPointGreater: bool): (r: Result<Outcome>)
    ensures cross.None? ==> r == Ok(Outcome(NoErrors, NoErrors))
  {
    if cross.None? then Ok(Outcome(NoErrors, NoErrors))
    else
      match Zones(first, second, cross.value, firstPointGreater)
      case UndefinedIndex(k) => UndefinedIndex(k)
      case Ok((falseAlarmZone, detectionSkipZone)) =>
        var firstWhole, secondWhole := WholeArea(first), WholeArea(second);
        Ok(Outcome(ErrorRates(Divide(falseAlarmZone, firstWhole), Divide(detectionSkipZone, firstWhole)),
                   ErrorRates(Divide(detectionSkipZone, secondWhole), Divide(falseAlarmZone, secondWhole))))
  }

  /** The two records share their zones: with non-zero whole areas,
      first.detectionSkip * firstWhole == second.falseAlarm * secondWhole and
      first.falseAlarm * firstWhole == second.detectionSkip * secondWhole. */
  lemma SharedZones(first: seq<Coord>, second: seq<Coord>, cross: Option<Coord>, firstPointGreater: bool)
    requires Derive(first, second, cross, firstPointGreater).Ok?
    requires WholeArea(first) != 0.0 && WholeArea(second) != 0.0
    ensures var o := Derive(first, second, cross, firstPointGreater).value;
      o.first.falseAlarm.Finite? && o.first.detectionSkip.Finite? &&
      o.second.falseAlarm.Finite? && o.second.detectionSkip.Finite? &&
      o.first.detectionSkip.value * WholeArea(first) == o.second.falseAlarm.value * WholeArea(second) &&
      o.first.falseAlarm.value * WholeArea(first) == o.second.detectionSkip.value * WholeArea(second)
  {
  }

  /** With the orientation test false, the false-alarm zone is the first curve right of
      the crossing and the detection-skip zone the second curve left of it. */
  lemma Orientation(first: seq<Coord>, second: seq<Coord>, cross: Coord)
    ensures var r := Derive(first, second, Some(cross), false);
      r.Ok? ==>
        TruncatedArea(first, cross, false).Ok? && TruncatedArea(second, cross, true).Ok? &&
        r.value.first.falseAlarm == Divide(TruncatedArea(first, cross, false).value, WholeArea(first)) &&
        r.value.first.detectionSkip == Divide(TruncatedArea(second, cross, true).value, WholeArea(first)) &&
        r.value.second.falseAlarm == Divide(TruncatedArea(second, cross, true).value, WholeArea(second)) &&
        r.value.second.detectionSkip == Divide(TruncatedArea(first, cross, false).value, WholeArea(second))
  {
  }

  /** For ascending curves, deriving from the crossing the search reports fails
      (reads an undefined point) exactly when the crossing is not strictly left of
      the last point of both curves. */
  lemma DeriveDefinedForCrossing(first: seq<Coord>, second: seq<Coord>)
    requires Ascending(first) && Ascending(second)
    requires Crossing(first, second).Some?
    ensures var c := Crossing(first, second).value;
      Derive(first, second, Some(c), false).Ok? <==>
        c.x < first[|first| - 1].x && c.x < second[|second| - 1].x
  {
    var c := Crossing(first, second).value;
    CrossingInCommonRange(first, second);
    TruncationDefinedness(first, c);
    TruncationDefinedness(second, c);
    var lastFirst, lastSecond := first[|first| - 1], second[|second| - 1];
    assert (exists k :: 0 <= k < |first| && first[k].x > c.x) <==> lastFirst.x > c.x by {
      if lastFirst.x > c.x {
        assert first[|first| - 1].x > c.x;
      }
    }
    assert (exists k :: 0 <= k < |second| && second[k].x > c.x) <==> lastSecond.x > c.x by {
      if lastSecond.x > c.x {
        assert second[|second| - 1].x > c.x;
      }
    }
  }

  /** Curves over disjoint domains give all four probabilities 0. */
  lemma DisjointCurvesNoErrors(first: seq<Coord>, second: seq<Coord>, firstPointGreater: bool)
    requires forall i, k :: 0 <= i < |first| && 0 <= k < |second| ==> first[i].x != second[k].x
    ensures Derive(first, second, Crossing(first, second), firstPointGreater) == Ok(Outcome(NoErrors, NoErrors))
  {
    NoSharedXNoCrossing(first, second);
  }
}
