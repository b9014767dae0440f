/**
 * Space occupation: Team_A rows bucketed into five vertical bands of the
 * pitch by their x coordinate, as `pd.cut` does with its default right-closed
 * bins, and the number of rows per band.
 */
module PitchZones {

  import opened Wrappers
  import opened Table
  import opened MatchData

  datatype Zone = FarLeft | Left | Center | Right | FarRight

  /** The bin edges and their labels: band `i` is (ZoneBins[i], ZoneBins[i + 1]]. */
  const ZoneBins: seq<real> := [0.0, 20.0, 40.0, 60.0, 80.0, 100.0]
  const ZoneLabels: seq<Zone> := [FarLeft, Left, Center, Right, FarRight]

  predicate Increasing(edges: seq<real>)
  {
    forall i, j :: 0 <= i < j < |edges| ==> edges[i] < edges[j]
  }

  /**
   * `pd.cut` with `right=True` and `include_lowest=False`: the index of the bin
   * (edges[i], edges[i + 1]] that holds `x`, or None when no bin does.
   */
  function Bin(edges: seq<real>, x: real): (i: Option<nat>)
    ensures i.Some? ==> i.value + 1 < |edges| && edges[i.value] < x <= edges[i.value + 1]
    ensures Increasing(edges) ==> forall j :: 0 <= j < |edges| - 1 ==> (edges[j] < x <= edges[j + 1] <==> i == Some(j))
    ensures Increasing(edges) && |edges| >= 2 ==> (i.None? <==> x <= edges[0] || edges[|edges| - 1] < x)
  {
    if |edges| < 2 then None
    else if edges[0] < x <= edges[1] then Some(0)
    else match Bin(edges[1..], x)
      case None => None
      case Some(j) => Some(j + 1)
  }

  /** The band of an x coordinate: the label of the bin that holds it. */
  function ZoneOf(x: real): (z: Option<Zone>)
    ensures z.None? <==> x <= 0.0 || 100.0 < x
  {
    assert Increasing(ZoneBins);
    match Bin(ZoneBins, x)
    case None => None
    case Some(i) => Some(ZoneLabels[i])
  }

  /**
   * Every band is closed on the right and open on the left, so x = 20 is Far
   * Left, not Left, and x = 0 or any x outside (0, 100] gets no band.
   */
  lemma ZoneBands(x: real)
    ensures ZoneOf(x) == Some(FarLeft) <==> 0.0 < x <= 20.0
    ensures ZoneOf(x) == Some(Left) <==> 20.0 < x <= 40.0
    ensures ZoneOf(x) == Some(Center) <==> 40.0 < x <= 60.0
    ensures ZoneOf(x) == Some(Right) <==> 60.0 < x <= 80.0
    ensures ZoneOf(x) == Some(FarRight) <==> 80.0 < x <= 100.0
    ensures ZoneOf(x).None? <==> x <= 0.0 || 100.0 < x
  {
    assert Increasing(ZoneBins);
  }

  predicate InTeamA(r: Record) { r.team == TeamA }

  function RowZone(r: Record): Option<Zone> { ZoneOf(r.x) }

  /** A Team_A row whose x lies in (0, 100], the rows that receive a band. */
  predicate OnPitchTeamA(r: Record) { r.team == TeamA && 0.0 < r.x <= 100.0 }

  /** Number of Team_A rows in band `z`. */
  function RowsInZone(t: seq<Record>, z: Zone): nat
  {
    CountKey(t, RowZone, InTeamA, Some(z))
  }

  /**
   * `team_a["pitch_zone"].value_counts()`: every band is reported, in label
   * order, possibly with count 0, and holds the number of Team_A rows whose
   * band it is. (pandas lists the bands by decreasing count; only the pairing
   * of band and count is modelled.)
   */
  function ZoneUsage(t: seq<Record>): (usage: seq<Group<Zone>>)
    ensures |usage| == |ZoneLabels|
    ensures forall i :: 0 <= i < |usage| ==> usage[i].key == ZoneLabels[i] && usage[i].size == RowsInZone(t, ZoneLabels[i])
  {
    var g := TeamAZoneGroups(t);
    seq(|ZoneLabels|, i requires 0 <= i < |ZoneLabels| => Group(ZoneLabels[i], Size(g, Some(ZoneLabels[i]))))
  }

  /** The Team_A rows grouped by band; rows with no band fall under the key None, which is never read. */
  function TeamAZoneGroups(t: seq<Record>): (g: seq<Group<Option<Zone>>>)
    ensures forall z :: Size(g, Some(z)) == RowsInZone(t, z)
  {
    CountKeyOfSelect(t, InTeamA, RowZone);
    GroupCount(Select(t, InTeamA), RowZone, Always)
  }

  /** The five band counts add up to the number of Team_A rows with 0 < x <= 100. */
  lemma {:induction false} BandCountsCover(t: seq<Record>)
    ensures RowsInZone(t, FarLeft) + RowsInZone(t, Left) + RowsInZone(t, Center)
            + RowsInZone(t, Right) + RowsInZone(t, FarRight) == |Select(t, OnPitchTeamA)|
  {
    if t != [] {
      ZoneBands(t[0].x);
      BandCountsCover(t[1..]);
    }
  }

  /** Zone usage partitions the Team_A rows that lie on the pitch. */
  lemma ZoneUsageTotal(t: seq<Record>)
    ensures Total(ZoneUsage(t)) == |Select(t, OnPitchTeamA)|
  {
    BandCountsCover(t);
    TotalOfFive(ZoneUsage(t));
  }

  /** The total of five groups is the sum of their five sizes. */
  lemma TotalOfFive<K>(g: seq<Group<K>>)
    requires |g| == 5
    ensures Total(g) == g[0].size + g[1].size + g[2].size + g[3].size + g[4].size
  {
    assert Total(g[4..]) == g[4].size by { assert g[4..][1..] == []; }
    assert Total(g[3..]) == g[3].size + Total(g[4..]) by { assert g[3..][1..] == g[4..]; }
    assert Total(g[2..]) == g[2].size + Total(g[3..]) by { assert g[2..][1..] == g[3..]; }
    assert Total(g[1..]) == g[1].size + Total(g[2..]) by { assert g[1..][1..] == g[2..]; }
  }
}
