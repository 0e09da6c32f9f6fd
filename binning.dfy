/** Histogram binning of the samples, the sort-and-count part of
    `calculateDistribution` in src/app/app.component.ts: the samples are sorted
    ascending, counted into a `Map` that remembers first insertion, and the map's
    entries become the curve's points `(value, count)`. */
module Binning {
  import opened Points

  predicate Sorted(s: seq<real>)
  {
    forall i, j :: 0 <= i < j < |s| ==> s[i] <= s[j]
  }

  /** Inserts `v` into the sorted `s`. */
  function Insert(v: real, s: seq<real>): (r: seq<real>)
    requires Sorted(s)
    ensures Sorted(r)
    ensures multiset(r) == multiset(s) + multiset{v}
    ensures |r| == |s| + 1
    ensures forall k :: 0 <= k < |r| ==> r[k] == v || r[k] in s
  {
    if |s| == 0 then [v]
    else if v <= s[0] then [v] + s
    else
      var rest := Insert(v, s[1..]);
      assert s == [s[0]] + s[1..];
      assert forall k :: 0 <= k < |rest| ==> s[0] <= rest[k];
      [s[0]] + rest
  }

  /** The samples in ascending order, as `data.sort((a, b) => a - b)` leaves them. */
  function SortSamples(samples: seq<real>): (sorted: seq<real>)
    ensures Sorted(sorted)
    ensures multiset(sorted) == multiset(samples)
  {
    if |samples| == 0 then []
    else
      assert samples == [samples[0]] + samples[1..];
      Insert(samples[0], SortSamples(samples[1..]))
  }

  /** The distinct values of `data` in the order of their first occurrence: the key
      order of the `Map` the source fills. */
  function Distinct(data: seq<real>): seq<real>
  {
    if |data| == 0 then []
    else
      var d := Distinct(data[..|data| - 1]);
      if data[|data| - 1] in d then d else d + [data[|data| - 1]]
  }

  /** The map's entries as points: each distinct value with its number of occurrences. */
  function Histogram(data: seq<real>): seq<Coord>
  {
    var d := Distinct(data);
    seq(|d|, k requires 0 <= k < |d| => Coord(d[k], multiset(data)[d[k]] as real))
  }

  /** The counting loop, with the `Map` modelled by its insertion-ordered keys and
      its key-to-count map. */
  method CountSamples(data: seq<real>) returns (points: seq<Coord>)
    ensures points == Histogram(data)
  {
    var keys: seq<real> := [];
    var counts: map<real, nat> := map[];
    for i := 0 to |data|
      invariant keys == Distinct(data[..i])
      invariant forall v :: v in counts <==> v in keys
      invariant forall v :: v in counts ==> counts[v] == multiset(data[..i])[v]
    {
      var value := data[i];
      assert data[..i + 1][..i] == data[..i];
      assert data[..i + 1] == data[..i] + [value];
      assert multiset(data[..i + 1]) == multiset(data[..i]) + multiset{value};
      DistinctKeys(data[..i]);
      if value in counts {
        var count := counts[value];
        counts := counts[value := count + 1];
      } else {
        counts := counts[value := 1];
        keys := keys + [value];
      }
    }
    assert data[..|data|] == data;
    assert forall v :: v in counts <==> v in keys;
    forall k | 0 <= k < |keys|
      ensures keys[k] in counts
    {
      var v := keys[k];
      assert v in keys;
      assert v in counts;
    }
    points := seq(|keys|, k requires 0 <= k < |keys| => Coord(keys[k], counts[keys[k]] as real));
  }

  /** Sorting followed by counting. */
  method CalculateDistribution(samples: seq<real>) returns (points: seq<Coord>)
    ensures points == Histogram(SortSamples(samples))
    ensures StrictlyAscending(points)
    ensures forall k :: 0 <= k < |points| ==> points[k].y >= 1.0
    ensures forall k :: 0 <= k < |points| ==> points[k].y == multiset(samples)[points[k].x] as real
    ensures forall v :: v in samples <==> exists k :: 0 <= k < |points| && points[k].x == v
    ensures SumY(points) == |samples| as real
  {
    var data := SortSamples(samples);
    points := CountSamples(data);
    HistogramOfSorted(data);
    HistogramCounts(data);
    HistogramTotal(data);
    forall v
      ensures v in samples <==> v in data
    {
      assert v in samples <==> v in multiset(samples);
      assert v in data <==> v in multiset(data);
    }
  }

  /** The keys are distinct and are exactly the values that occur. */
  lemma {:induction false} DistinctKeys(data: seq<real>)
    ensures forall i, j :: 0 <= i < j < |Distinct(data)| ==> Distinct(data)[i] != Distinct(data)[j]
    ensures forall v :: v in Distinct(data) <==> v in data
  {
    if |data| > 0 {
      var prefix := data[..|data| - 1];
      DistinctKeys(prefix);
      assert data == prefix + [data[|data| - 1]];
    }
  }

  /** For sorted data the keys ascend strictly and the last key is the last sample. */
  lemma {:induction false} DistinctOfSorted(data: seq<real>)
    requires Sorted(data)
    ensures forall i, j :: 0 <= i < j < |Distinct(data)| ==> Distinct(data)[i] < Distinct(data)[j]
    ensures |data| > 0 ==> |Distinct(data)| > 0 && Distinct(data)[|Distinct(data)| - 1] == data[|data| - 1]
  {
    if |data| > 0 {
      var prefix := data[..|data| - 1];
      var v := data[|data| - 1];
      assert Sorted(prefix);
      DistinctOfSorted(prefix);
      DistinctKeys(prefix);
      var d := Distinct(prefix);
      if |prefix| > 0 {
        var last := d[|d| - 1];
        assert last == prefix[|prefix| - 1] && prefix[|prefix| - 1] == data[|data| - 2];
        assert last <= v;
        if v !in d {
          assert last < v;
        }
      }
    }
  }

  /** The points of a sorted sample list have strictly ascending `x`. */
  lemma HistogramOfSorted(data: seq<real>)
    requires Sorted(data)
    ensures StrictlyAscending(Histogram(data))
  {
    DistinctOfSorted(data);
  }

  /** Each point's count is the number of occurrences of its value, at least 1,
      and every sample value has a point. */
  lemma HistogramCounts(data: seq<real>)
    ensures forall k :: 0 <= k < |Histogram(data)| ==>
      Histogram(data)[k].y >= 1.0 && Histogram(data)[k].y == multiset(data)[Histogram(data)[k].x] as real
    ensures forall v :: v in data <==> exists k :: 0 <= k < |Histogram(data)| && Histogram(data)[k].x == v
  {
    DistinctKeys(data);
    var h, d := Histogram(data), Distinct(data);
    forall k | 0 <= k < |h|
      ensures h[k].y >= 1.0
    {
      assert d[k] in d;
      assert d[k] in multiset(data);
    }
    forall v | v in data
      ensures exists k :: 0 <= k < |h| && h[k].x == v
    {
      var k :| 0 <= k < |d| && d[k] == v;
      assert h[k].x == v;
    }
  }

  /** The sum of the counts of the keys `d`, in multiset `m`. */
  function SumCounts(d: seq<real>, m: multiset<real>): nat
  {
    if |d| == 0 then 0 else SumCounts(d[..|d| - 1], m) + m[d[|d| - 1]]
  }

  /** The sum of the `y` of the points. */
  function SumY(points: seq<Coord>): real
  {
    if |points| == 0 then 0.0 else SumY(points[..|points| - 1]) + points[|points| - 1].y
  }

  /** Adding one occurrence of `v` raises the sum by 1 exactly when `v` is a key. */
  lemma {:induction false} SumCountsAdd(d: seq<real>, m: multiset<real>, v: real)
    requires forall i, j :: 0 <= i < j < |d| ==> d[i] != d[j]
    ensures SumCounts(d, m + multiset{v}) == SumCounts(d, m) + (if v in d then 1 else 0)
  {
    if |d| > 0 {
      var prefix := d[..|d| - 1];
      SumCountsAdd(prefix, m, v);
      assert d == prefix + [d[|d| - 1]];
      assert v in d <==> v in prefix || v == d[|d| - 1];
      assert v == d[|d| - 1] ==> v !in prefix;
    }
  }

  /** The counts of all distinct values add up to the number of samples. */
  lemma {:induction false} SumCountsDistinct(data: seq<real>)
    ensures SumCounts(Distinct(data), multiset(data)) == |data|
  {
    if |data| > 0 {
      var prefix := data[..|data| - 1];
      var v := data[|data| - 1];
      assert data == prefix + [v];
      SumCountsDistinct(prefix);
      DistinctKeys(prefix);
      SumCountsAdd(Distinct(prefix), multiset(prefix), v);
      if v !in Distinct(prefix) {
        assert multiset(prefix)[v] == 0;
      }
    }
  }

  lemma {:induction false} SumYOfCounts(points: seq<Coord>, d: seq<real>, m: multiset<real>)
    requires |points| == |d|
    requires forall k :: 0 <= k < |d| ==> points[k].y == m[d[k]] as real
    ensures SumY(points) == SumCounts(d, m) as real
  {
    if |d| > 0 {
      SumYOfCounts(points[..|points| - 1], d[..|d| - 1], m);
    }
  }

  /** The counts of the points add up to the number of samples. */
  lemma HistogramTotal(data: seq<real>)
    ensures SumY(Histogram(data)) == |data| as real
  {
    SumYOfCounts(Histogram(data), Distinct(data), multiset(data));
    SumCountsDistinct(data);
  }
}
