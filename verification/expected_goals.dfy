/**
 * The proxy expected-goals value of each shot: a draw from the high band when
 * the shot is taken beyond x = 70, from the low band otherwise, and the mean
 * over all shots.
 */
module ExpectedGoals {

  import opened Wrappers
  import opened Table
  import opened MatchData
  import opened EventReports

  /** Shots with x strictly beyond this line take their value from the high band. */
  const AttackingLine: real := 70.0

  /** `np.random.uniform(lo, hi)` yields values in [lo, hi). */
  const HighLo: real := 0.3
  const HighHi: real := 0.6
  const LowLo: real := 0.05
  const LowHi: real := 0.25

  predicate InRange(v: real, lo: real, hi: real) { lo <= v < hi }

  /** The shot rows, `df[df["event"] == "shot"]`. */
  function Shots(t: seq<Record>): (shots: seq<Record>)
    ensures forall r :: r in shots ==> r.event == Shot
    ensures forall r :: multiset(shots)[r] == if r.event == Shot then multiset(t)[r] else 0
    ensures |shots| == Size(EventCounts(t), Shot)
  {
    CountKeyIsSelect(t, EventOf, Always, Shot, IsShot);
    Select(t, IsShot)
  }

  /**
   * `np.where(shots["x"] > 70, high, low)`: shot `i` takes the `i`-th high draw
   * when it lies strictly beyond the line, and the `i`-th low draw otherwise.
   */
  function ProxyXG(shots: seq<Record>, high: seq<real>, low: seq<real>): (xg: seq<real>)
    requires |high| == |shots| && |low| == |shots|
    ensures |xg| == |shots|
    ensures forall i :: 0 <= i < |shots| && shots[i].x > AttackingLine ==> xg[i] == high[i]
    ensures forall i :: 0 <= i < |shots| && shots[i].x <= AttackingLine ==> xg[i] == low[i]
  {
    seq(|shots|, i requires 0 <= i < |shots| => if shots[i].x > AttackingLine then high[i] else low[i])
  }

  /** The draws as the generator makes them: each high draw in [0.3, 0.6), each low draw in [0.05, 0.25). */
  predicate DrawsInBands(high: seq<real>, low: seq<real>)
  {
    (forall i :: 0 <= i < |high| ==> InRange(high[i], HighLo, HighHi)) &&
    (forall i :: 0 <= i < |low| ==> InRange(low[i], LowLo, LowHi))
  }

  /**
   * A shot's value lies in the high band exactly when its x is strictly beyond
   * 70, and in the low band exactly when it is not; x = 70 is a low-band shot.
   */
  lemma XGBand(shots: seq<Record>, high: seq<real>, low: seq<real>, i: nat)
    requires |high| == |shots| && |low| == |shots| && i < |shots|
    requires DrawsInBands(high, low)
    ensures InRange(ProxyXG(shots, high, low)[i], HighLo, HighHi) <==> shots[i].x > AttackingLine
    ensures InRange(ProxyXG(shots, high, low)[i], LowLo, LowHi) <==> shots[i].x <= AttackingLine
  {
  }

  function Sum(v: seq<real>): real
  {
    if v == [] then 0.0 else v[0] + Sum(v[1..])
  }

  /** `shots["xG"].mean()`: None (NaN) when there is no shot. */
  function MeanXG(xg: seq<real>): (mean: Option<real>)
    ensures mean.None? <==> |xg| == 0
  {
    if |xg| == 0 then None else Some(Sum(xg) / |xg| as real)
  }

  /** Values all in [lo, hi) sum to a value in [n * lo, n * hi). */
  lemma {:induction false} SumWithin(v: seq<real>, lo: real, hi: real)
    requires |v| > 0
    requires forall i :: 0 <= i < |v| ==> InRange(v[i], lo, hi)
    ensures |v| as real * lo <= Sum(v) < |v| as real * hi
  {
    if |v| > 1 {
      SumWithin(v[1..], lo, hi);
    }
  }

  /** The mean of values all in [lo, hi) lies in [lo, hi). */
  lemma MeanWithin(v: seq<real>, lo: real, hi: real)
    requires |v| > 0
    requires forall i :: 0 <= i < |v| ==> InRange(v[i], lo, hi)
    ensures InRange(MeanXG(v).value, lo, hi)
  {
    SumWithin(v, lo, hi);
    var n := |v| as real;
    assert Sum(v) / n * n == Sum(v);
  }

  /**
   * With draws in their bands, the average proxy xG of a non-empty set of
   * shots lies in [0.05, 0.6): in the high band [0.3, 0.6) when every shot is
   * beyond the line, and in the low band [0.05, 0.25) when none is.
   */
  lemma MeanXGBounds(shots: seq<Record>, high: seq<real>, low: seq<real>)
    requires |high| == |shots| && |low| == |shots| && |shots| > 0
    requires DrawsInBands(high, low)
    ensures InRange(MeanXG(ProxyXG(shots, high, low)).value, LowLo, HighHi)
    ensures (forall i :: 0 <= i < |shots| ==> shots[i].x > AttackingLine) ==>
      InRange(MeanXG(ProxyXG(shots, high, low)).value, HighLo, HighHi)
    ensures (forall i :: 0 <= i < |shots| ==> shots[i].x <= AttackingLine) ==>
      InRange(MeanXG(ProxyXG(shots, high, low)).value, LowLo, LowHi)
  {
    var xg := ProxyXG(shots, high, low);
    MeanWithin(xg, LowLo, HighHi);
    if forall i :: 0 <= i < |shots| ==> shots[i].x > AttackingLine {
      MeanWithin(xg, HighLo, HighHi);
    }
    if forall i :: 0 <= i < |shots| ==> shots[i].x <= AttackingLine {
      MeanWithin(xg, LowLo, LowHi);
    }
  }

  /** Every shot the filter returns is a row of the table. */
  lemma ShotsAreRows(t: seq<Record>)
    ensures forall r :: r in Shots(t) ==> r in t
  {
    forall r | r in Shots(t) ensures r in t {
      assert multiset(Shots(t))[r] > 0;
    }
  }

  /**
   * The xG report read from the table: with one draw of each band per shot row,
   * the mean proxy xG of the table's shots lies in [0.05, 0.6); in the high
   * band when every shot row of the table is beyond the line, and in the low
   * band when none is.
   */
  lemma TableMeanXG(t: seq<Record>, high: seq<real>, low: seq<real>)
    requires |high| == |Shots(t)| && |low| == |Shots(t)| && |Shots(t)| > 0
    requires DrawsInBands(high, low)
    ensures InRange(MeanXG(ProxyXG(Shots(t), high, low)).value, LowLo, HighHi)
    ensures (forall r :: r in t && r.event == Shot ==> r.x > AttackingLine) ==>
      InRange(MeanXG(ProxyXG(Shots(t), high, low)).value, HighLo, HighHi)
    ensures (forall r :: r in t && r.event == Shot ==> r.x <= AttackingLine) ==>
      InRange(MeanXG(ProxyXG(Shots(t), high, low)).value, LowLo, LowHi)
  {
    var shots := Shots(t);
    ShotsAreRows(t);
    MeanXGBounds(shots, high, low);
    if forall r :: r in t && r.event == Shot ==> r.x > AttackingLine {
      forall i | 0 <= i < |shots| ensures shots[i].x > AttackingLine {
        assert shots[i] in shots;
      }
    }
    if forall r :: r in t && r.event == Shot ==> r.x <= AttackingLine {
      forall i | 0 <= i < |shots| ensures shots[i].x <= AttackingLine {
        assert shots[i] in shots;
      }
    }
  }
}
