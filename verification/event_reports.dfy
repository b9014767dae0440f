/**
 * Event-label histogram, the three figures of the match narrative, and the
 * threshold counts: high-speed transitions, opponent actions in its defensive
 * third, and wide shots taken as set-piece proxies.
 */
module EventReports {

  import opened Table
  import opened MatchData

  predicate IsCarry(r: Record) { r.event == Carry }
  predicate IsShot(r: Record) { r.event == Shot }
  predicate InTeamB(r: Record) { r.team == TeamB }

  /** Number of rows whose event label is `e`. */
  function RowsWithEvent(t: seq<Record>, e: Event): nat
  {
    CountKey(t, EventOf, Always, e)
  }

  /**
   * `df["event"].value_counts()`: one group per event label that occurs, with
   * its number of rows; missing cells are dropped, as `dropna=True` does.
   * `Size(EventCounts(t), e)` is `event_counts.get(e, 0)`.
   */
  function EventCounts(t: seq<Record>): (g: seq<Group<Event>>)
    ensures DistinctKeys(g)
    ensures forall i :: 0 <= i < |g| ==> g[i].size > 0
    ensures Missing !in Keys(g) && Size(g, Missing) == 0
    ensures forall e :: e != Missing ==> Size(g, e) == RowsWithEvent(t, e)
    ensures Total(g) == |Select(t, HasEvent)|
  {
    var labelled := Select(t, HasEvent);
    CountKeyOfSelect(t, HasEvent, EventOf);
    SelectAll(labelled, Always);
    var g := GroupCount(labelled, EventOf, Always);
    assert Size(g, Missing) == 0 by {
      CountKeyNone(t, EventOf, HasEvent, Missing);
    }
    assert Missing !in Keys(g) by {
      if Missing in Keys(g) {
        var i := SizeWitness(g, Missing);
      }
    }
    assert forall e :: e != Missing ==> Size(g, e) == RowsWithEvent(t, e) by {
      forall e | e != Missing ensures Size(g, e) == RowsWithEvent(t, e) {
        CountKeyCountedByKey(t, EventOf, HasEvent, e);
      }
    }
    g
  }

  /** The three figures quoted by the match narrative. */
  datatype Narrative = Narrative(passes: nat, pressures: nat, shots: nat)

  /** `event_counts.get('pass', 0)`, `.get('pressure', 0)` and `.get('shot', 0)`. */
  function NarrativeFigures(t: seq<Record>): (n: Narrative)
    ensures n.passes == RowsWithEvent(t, Pass)
    ensures n.pressures == RowsWithEvent(t, Pressure)
    ensures n.shots == RowsWithEvent(t, Shot)
  {
    var counts := EventCounts(t);
    Narrative(Size(counts, Pass), Size(counts, Pressure), Size(counts, Shot))
  }

  /** A carry faster than 5: the strict threshold leaves out a speed of exactly 5. */
  predicate IsTransition(r: Record) { r.event == Carry && r.speed > 5.0 }

  /** Number of high-speed transition actions. */
  function TransitionCount(t: seq<Record>): (n: nat)
    ensures n <= Size(EventCounts(t), Carry)
    ensures n == 0 <==> forall i :: 0 <= i < |t| ==> t[i].event != Carry || t[i].speed <= 5.0
    ensures n == CountKey(t, IsTransition, Always, true)
  {
    CountKeyIsSelect(t, IsTransition, Always, true, IsTransition);
    SelectMonotone(t, IsTransition, IsCarry);
    CountKeyIsSelect(t, EventOf, Always, Carry, IsCarry);
    |Select(t, IsTransition)|
  }

  /** An opponent (Team_B) action in its defensive third, x strictly below 30. */
  predicate IsWeakZoneAction(r: Record) { r.team == TeamB && r.x < 30.0 }

  /** Number of opponent actions in its defensive third. */
  function WeakZoneCount(t: seq<Record>): (n: nat)
    ensures n <= |Select(t, InTeamB)|
    ensures n == 0 <==> forall i :: 0 <= i < |t| ==> t[i].team != TeamB || t[i].x >= 30.0
    ensures n == CountKey(t, IsWeakZoneAction, Always, true)
  {
    CountKeyIsSelect(t, IsWeakZoneAction, Always, true, IsWeakZoneAction);
    SelectMonotone(t, IsWeakZoneAction, InTeamB);
    |Select(t, IsWeakZoneAction)|
  }

  /** A shot from a wide area, y strictly below 20 or strictly above 80. */
  predicate IsSetPieceShot(r: Record) { r.event == Shot && (r.y < 20.0 || r.y > 80.0) }

  /** Number of wide shots, the set-piece proxy. */
  function SetPieceCount(t: seq<Record>): (n: nat)
    ensures n <= Size(EventCounts(t), Shot)
    ensures n == 0 <==> forall i :: 0 <= i < |t| ==> t[i].event != Shot || 20.0 <= t[i].y <= 80.0
    ensures n == CountKey(t, IsSetPieceShot, Always, true)
  {
    CountKeyIsSelect(t, IsSetPieceShot, Always, true, IsSetPieceShot);
    SelectMonotone(t, IsSetPieceShot, IsShot);
    CountKeyIsSelect(t, EventOf, Always, Shot, IsShot);
    |Select(t, IsSetPieceShot)|
  }
}
