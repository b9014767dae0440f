/**
 * Pressing intensity: the pressure rows grouped by minute, the average number
 * of pressing actions over the minutes that have any, and the peak minute.
 */
module Pressing {

  import opened Wrappers
  import opened Table
  import opened MatchData

  predicate IsPressure(r: Record) { r.event == Pressure }

  /** Number of pressure rows in minute `m` of table `t`. */
  function PressesIn(t: seq<Record>, m: int): nat
  {
    CountKey(t, MinuteOf, IsPressure, m)
  }

  /**
   * `groupby("minute").size()` over the pressure rows: one group per minute that
   * has at least one pressure row, holding the number of such rows.
   */
  function PressingIntensity(t: seq<Record>): (g: seq<Group<int>>)
    ensures DistinctKeys(g)
    ensures forall i :: 0 <= i < |g| ==> g[i].size > 0
    ensures forall m :: Size(g, m) == PressesIn(t, m)
    ensures forall m :: m in Keys(g) <==> PressesIn(t, m) > 0
    ensures Total(g) == |Select(t, IsPressure)|
  {
    var pressing := Select(t, IsPressure);
    CountKeyOfSelect(t, IsPressure, MinuteOf);
    SelectAll(pressing, Always);
    var g := GroupCount(pressing, MinuteOf, Always);
    assert forall m :: m in Keys(g) ==> Size(g, m) > 0 by {
      forall m | m in Keys(g) ensures Size(g, m) > 0 {
        var i := SizeWitness(g, m);
      }
    }
    assert forall m :: m !in Keys(g) ==> Size(g, m) == 0 by {
      forall m | m !in Keys(g) ensures Size(g, m) == 0 {
        SizeOutsideKeys(g, m);
      }
    }
    g
  }

  /** There is no pressing minute exactly when there is no pressure row. */
  lemma NoPressingMinutes(t: seq<Record>)
    ensures |PressingIntensity(t)| == 0 <==> |Select(t, IsPressure)| == 0
  {
    TotalAtLeastLength(PressingIntensity(t));
  }

  /** The largest group, the one with the smallest key among equally large ones. */
  function PeakGroup(g: seq<Group<int>>): (best: Group<int>)
    requires |g| > 0
    ensures best in g
    ensures forall i :: 0 <= i < |g| ==> g[i].size <= best.size
    ensures forall i :: 0 <= i < |g| && g[i].size == best.size ==> best.key <= g[i].key
  {
    if |g| == 1 then g[0]
    else
      var rest := PeakGroup(g[1..]);
      if g[0].size > rest.size || (g[0].size == rest.size && g[0].key <= rest.key) then g[0] else rest
  }

  /**
   * `pressing_intensity.mean()`: pressure rows per pressing minute, or None
   * (pandas NaN) when there is no pressure row at all.
   */
  function AveragePressing(t: seq<Record>): (mean: Option<real>)
    ensures mean.None? <==> |Select(t, IsPressure)| == 0
    ensures mean.Some? ==> mean.value == |Select(t, IsPressure)| as real / |Keys(PressingIntensity(t))| as real
    ensures mean.Some? ==> mean.value >= 1.0
  {
    var g := PressingIntensity(t);
    NoPressingMinutes(t);
    TotalAtLeastLength(g);
    KeyCardinality(g);
    if |g| == 0 then None
    else
      DivideAtLeast(Total(g), |g|, 1);
      Some(Total(g) as real / |g| as real)
  }

  /**
   * `pressing_intensity.idxmax()`: the earliest minute with the largest number
   * of pressure rows. The group index is sorted by minute, so the first maximal
   * label is the smallest maximal minute. None when there is no pressure row,
   * where `idxmax` raises instead.
   */
  function PeakPressingMinute(t: seq<Record>): (peak: Option<int>)
    ensures peak.None? <==> |Select(t, IsPressure)| == 0
    ensures peak.Some? ==> PressesIn(t, peak.value) > 0
    ensures peak.Some? ==> forall m :: PressesIn(t, m) <= PressesIn(t, peak.value)
    ensures peak.Some? ==> forall m :: PressesIn(t, m) == PressesIn(t, peak.value) ==> peak.value <= m
  {
    var g := PressingIntensity(t);
    NoPressingMinutes(t);
    if |g| == 0 then None
    else
      PeakGroupIsArgmax(g);
      Some(PeakGroup(g).key)
  }

  /**
   * Read through `Size`, the peak group of a grouping with distinct keys is an
   * argmax over all keys: its key has its count, no key has more, and every
   * key with as many is at least as large.
   */
  lemma PeakGroupIsArgmax(g: seq<Group<int>>)
    requires |g| > 0 && DistinctKeys(g)
    ensures Size(g, PeakGroup(g).key) == PeakGroup(g).size
    ensures forall m :: Size(g, m) <= PeakGroup(g).size
    ensures forall m :: Size(g, m) > 0 && Size(g, m) == PeakGroup(g).size ==> PeakGroup(g).key <= m
  {
    var best := PeakGroup(g);
    var b :| 0 <= b < |g| && g[b] == best;
    SizeOfMember(g, b);
    forall m ensures Size(g, m) <= best.size && (Size(g, m) > 0 && Size(g, m) == best.size ==> best.key <= m) {
      if m in Keys(g) {
        var i := SizeWitness(g, m);
      } else {
        SizeOutsideKeys(g, m);
      }
    }
  }

  /** The average never exceeds the count of the peak minute. */
  lemma AverageAtMostPeak(t: seq<Record>)
    requires |Select(t, IsPressure)| > 0
    ensures AveragePressing(t).Some? && PeakPressingMinute(t).Some?
    ensures AveragePressing(t).value <= PressesIn(t, PeakPressingMinute(t).value) as real
  {
    var g := PressingIntensity(t);
    NoPressingMinutes(t);
    PeakGroupIsArgmax(g);
    KeyCardinality(g);
    MeanAtMost(g, PeakGroup(g).size);
  }

  /** A non-empty grouping whose counts are all at most `b` has a mean count of at most `b`. */
  lemma MeanAtMost<K>(g: seq<Group<K>>, b: nat)
    requires |g| > 0
    requires forall i :: 0 <= i < |g| ==> g[i].size <= b
    ensures Total(g) as real / |g| as real <= b as real
  {
    TotalAtMost(g, b);
    DivideAtMost(Total(g), |g|, b);
  }

  /** `a >= n * b` with `n > 0` gives `a / n >= b`, for counts. */
  lemma DivideAtLeast(a: nat, n: nat, b: nat)
    requires n > 0 && a >= n * b
    ensures a as real / n as real >= b as real
  {
    assert (n * b) as real == n as real * b as real;
  }

  /** `a <= n * b` with `n > 0` gives `a / n <= b`, for counts. */
  lemma DivideAtMost(a: nat, n: nat, b: nat)
    requires n > 0 && a <= n * b
    ensures a as real / n as real <= b as real
  {
    assert (n * b) as real == n as real * b as real;
  }
}
