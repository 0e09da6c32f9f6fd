/** The component state `recalculate` in src/app/app.component.ts updates: the two
    curves (held by the source's charts) and the two `Probability` records whose
    fields it overwrites. */
module App {
  import opened Wrappers
  import opened Points
  import opened CrossSearch
  import opened Areas
  import opened Binning
  import opened Probabilities

  /** A `Probability` record, updated field by field. */
  class Probability {
    var falseAlarm: Number
    var detectionSkip: Number

    constructor ()
      ensures falseAlarm == Finite(0.0) && detectionSkip == Finite(0.0)
    {
      falseAlarm, detectionSkip := Finite(0.0), Finite(0.0);
    }

    function Rates(): ErrorRates
      reads this
    {
      ErrorRates(falseAlarm, detectionSkip)
    }
  }

  class AppComponent {
    /** The points of the first and second chart. */
    var firstPoints: seq<Coord>
    var secondPoints: seq<Coord>
    const firstProbability: Probability
    const secondProbability: Probability

    ghost predicate Valid()
      reads this
    {
      firstProbability != secondProbability
    }

    constructor ()
      ensures Valid() && fresh(firstProbability) && fresh(secondProbability)
      ensures firstPoints == [] && secondPoints == []
      ensures firstProbability.Rates() == NoErrors && secondProbability.Rates() == NoErrors
    {
      firstPoints, secondPoints := [], [];
      firstProbability := new Probability();
      secondProbability := new Probability();
    }

    /** Rebins both curves from the samples the generator produced, looks for their
        crossing and writes the four probabilities. When a truncation reads an undefined
        point the source throws: the curves are already replaced, the records are not
        touched, and the outcome carries the index that was read. */
    method Recalculate(firstSamples: seq<real>, secondSamples: seq<real>) returns (outcome: Result<Outcome>)
      requires Valid()
      modifies this, firstProbability, secondProbability
      ensures Valid()
      ensures firstPoints == Histogram(SortSamples(firstSamples))
      ensures secondPoints == Histogram(SortSamples(secondSamples))
      ensures outcome == Derive(firstPoints, secondPoints, Crossing(firstPoints, secondPoints), false)
      ensures outcome.Ok? ==>
        firstProbability.Rates() == outcome.value.first && secondProbability.Rates() == outcome.value.second
      ensures outcome.UndefinedIndex? ==> unchanged(firstProbability, secondProbability)
    {
      firstPoints := CalculateDistribution(firstSamples);
      secondPoints := CalculateDistribution(secondSamples);

      var cross := CrossCoordinates(firstPoints, secondPoints);
      if cross.None? {
        firstProbability.falseAlarm := Finite(0.0);
        firstProbability.detectionSkip := Finite(0.0);
        secondProbability.falseAlarm := Finite(0.0);
        secondProbability.detectionSkip := Finite(0.0);
        return Ok(Outcome(NoErrors, NoErrors));
      }

      var firstWholeZone := AreaUnder(firstPoints);
      var secondWholeZone := AreaUnder(secondPoints);
      // Line 105 compares the two first points as objects; both convert to the same
      // string "[object Object]", so `>` is false and only the else branch runs.
      var falseAlarmZone := TruncatedAreaUnder(firstPoints, cross.value, false);
      if falseAlarmZone.UndefinedIndex? {
        return UndefinedIndex(falseAlarmZone.index);
      }
      var detectionSkipZone := TruncatedAreaUnder(secondPoints, cross.value, true);
      if detectionSkipZone.UndefinedIndex? {
        return UndefinedIndex(detectionSkipZone.index);
      }
      var first := ErrorRates(Divide(falseAlarmZone.value, firstWholeZone), Divide(detectionSkipZone.value, firstWholeZone));
      var second := ErrorRates(Divide(detectionSkipZone.value, secondWholeZone), Divide(falseAlarmZone.value, secondWholeZone));
      firstProbability.falseAlarm := first.falseAlarm;
      firstProbability.detectionSkip := first.detectionSkip;
      secondProbability.falseAlarm := second.falseAlarm;
      secondProbability.detectionSkip := second.detectionSkip;
      return Ok(Outcome(first, second));
    }
  }
}
