/**
 * The simulated match table: one row per (minute, player), and the nested
 * minute-by-player loop that generates it. The random draws that the generator
 * makes for each row (x, y, speed and the event label) are passed in, in the
 * order in which the loop consumes them.
 */
module MatchData {

  import opened Table

  datatype Team = TeamA | TeamB

  /**
   * The event label of a row. `NoAction` is the label "none". `Missing` is an
   * empty cell, which pandas reads back as NaN: `count()` and `value_counts()`
   * skip it. The generator never produces it.
   */
  datatype Event = Pass | Shot | Pressure | Carry | NoAction | Missing

  datatype Record = Record(minute: int, player: string, team: Team, x: real, y: real, speed: real, event: Event)

  /** The four random values drawn for one row. */
  datatype Draw = Draw(x: real, y: real, speed: real, event: Event)

  const MinuteCount: nat := 90
  const SquadSize: nat := 22
  const TeamSize: nat := 11

  /** The character of one decimal digit. */
  function Digit(d: nat): (c: char)
    requires d < 10
  {
    (48 + d) as char
  }

  /** The decimal rendering of `n`, as Python's `f"{n}"`. */
  function Decimal(n: nat): (s: string)
    ensures |s| >= 1
    ensures n < 10 <==> |s| == 1
  {
    if n < 10 then [Digit(n)] else Decimal(n / 10) + [Digit(n % 10)]
  }

  /** Different numbers have different decimal renderings. */
  lemma {:induction false} DecimalInjective(a: nat, b: nat)
    requires Decimal(a) == Decimal(b)
    ensures a == b
  {
    if a >= 10 && b >= 10 {
      var sa, sb := Decimal(a), Decimal(b);
      assert sa[|sa| - 1] == Digit(a % 10) && sb[|sb| - 1] == Digit(b % 10);
      assert sa[..|sa| - 1] == Decimal(a / 10);
      assert sb[..|sb| - 1] == Decimal(b / 10);
      DecimalInjective(a / 10, b / 10);
    } else if a < 10 && b < 10 {
      assert Decimal(a)[0] == Digit(a);
    }
  }

  /** The player labels "P1" .. "P22"; the first eleven form Team_A. */
  function Roster(): (players: seq<string>)
    ensures |players| == SquadSize
  {
    seq(SquadSize, i requires 0 <= i < SquadSize => "P" + Decimal(i + 1))
  }

  /** No two roster slots carry the same label. */
  lemma RosterDistinct(i: nat, j: nat)
    requires i < SquadSize && j < SquadSize && Roster()[i] == Roster()[j]
    ensures i == j
  {
    assert Roster()[i][1..] == Decimal(i + 1);
    assert Roster()[j][1..] == Decimal(j + 1);
    DecimalInjective(i + 1, j + 1);
  }

  /** The roster labels are pairwise different. */
  lemma RosterAllDistinct()
    ensures forall a, b :: 0 <= a < b < SquadSize ==> Roster()[a] != Roster()[b]
  {
    forall a, b | 0 <= a < b < SquadSize ensures Roster()[a] != Roster()[b] {
      if Roster()[a] == Roster()[b] { RosterDistinct(a, b); }
    }
  }

  /** A player belongs to Team_A exactly when the label is among the first eleven roster labels. */
  function TeamOf(player: string): (team: Team)
    ensures player !in Roster() ==> team == TeamB
  {
    if player in Roster()[..TeamSize] then TeamA else TeamB
  }

  /** The roster slot `k` plays for Team_A exactly when `k` is one of the first eleven slots. */
  lemma TeamOfSlot(k: nat)
    requires k < SquadSize
    ensures TeamOf(Roster()[k]) == TeamA <==> k < TeamSize
  {
    if k >= TeamSize && Roster()[k] in Roster()[..TeamSize] {
      var j :| 0 <= j < TeamSize && Roster()[..TeamSize][j] == Roster()[k];
      RosterDistinct(j, k);
    }
  }

  /** Row `i` of the generated table, built from the `i`-th draw: rows run minute-major, players in roster order. */
  function RowAt(i: nat, d: Draw): (r: Record)
  {
    var player := Roster()[i % SquadSize];
    Record(i / SquadSize + 1, player, TeamOf(player), d.x, d.y, d.speed, d.event)
  }

  /** The table the generator produces from its draws. */
  function MatchTable(draws: seq<Draw>): (t: seq<Record>)
    ensures |t| == |draws|
  {
    seq(|draws|, i requires 0 <= i < |draws| => RowAt(i, draws[i]))
  }

  /** The index arithmetic of the nested loop: slot `k` of minute block `m`. */
  lemma BlockIndex(m: nat, k: nat)
    requires k < SquadSize
    ensures (m * SquadSize + k) / SquadSize == m
    ensures (m * SquadSize + k) % SquadSize == k
  {
  }

  /** The row the loop builds for minute `minute` and slot `k` is row (minute - 1) * 22 + k of the table. */
  lemma LoopRow(minute: nat, k: nat, d: Draw)
    requires 1 <= minute && k < SquadSize
    ensures RowAt((minute - 1) * SquadSize + k, d)
         == Record(minute, Roster()[k], if Roster()[k] in Roster()[..TeamSize] then TeamA else TeamB, d.x, d.y, d.speed, d.event)
  {
    BlockIndex(minute - 1, k);
  }

  /**
   * The nested `for minute ... for player ...` loop appending one row per
   * (minute, player), each built from the next draw.
   */
  method GenerateMatch(draws: seq<Draw>) returns (data: seq<Record>)
    requires |draws| == MinuteCount * SquadSize
    ensures data == MatchTable(draws)
  {
    var players := Roster();
    data := [];
    var next := 0;
    for minute := 1 to MinuteCount + 1
      invariant next == |data| == (minute - 1) * SquadSize
      invariant forall i :: 0 <= i < |data| ==> data[i] == RowAt(i, draws[i])
    {
      for k := 0 to |players|
        invariant next == |data| == (minute - 1) * SquadSize + k
        invariant forall i :: 0 <= i < |data| ==> data[i] == RowAt(i, draws[i])
      {
        var player := players[k];
        var d := draws[next];
        var row := Record(minute, player, if player in players[..TeamSize] then TeamA else TeamB, d.x, d.y, d.speed, d.event);
        LoopRow(minute, k, d);
        data := data + [row];
        next := next + 1;
      }
    }
  }

  /** The columns used as grouping keys, and the "cell is not missing" test on the event column. */
  function MinuteOf(r: Record): int { r.minute }
  function PlayerOf(r: Record): string { r.player }
  function EventOf(r: Record): Event { r.event }
  predicate HasEvent(r: Record) { r.event != Missing }

  /**
   * The generated table has 90 x 22 = 1980 rows, minute-major: minutes run
   * 1..90 in non-decreasing order, and within a minute the players follow the
   * roster; the team is Team_A exactly on the first eleven roster slots.
   */
  lemma MatchTableShape(draws: seq<Draw>)
    requires |draws| == MinuteCount * SquadSize
    ensures |MatchTable(draws)| == 1980
    ensures forall i :: 0 <= i < 1980 ==> 1 <= MatchTable(draws)[i].minute <= MinuteCount
    ensures forall i, j :: 0 <= i <= j < 1980 ==> MatchTable(draws)[i].minute <= MatchTable(draws)[j].minute
    ensures forall i :: 0 <= i < 1980 ==> MatchTable(draws)[i].player == Roster()[i % SquadSize]
    ensures forall i :: 0 <= i < 1980 ==> (MatchTable(draws)[i].team == TeamA <==> i % SquadSize < TeamSize)
  {
    var t := MatchTable(draws);
    forall i | 0 <= i < 1980
      ensures 1 <= t[i].minute <= MinuteCount
      ensures t[i].team == TeamA <==> i % SquadSize < TeamSize
    {
      TeamOfSlot(i % SquadSize);
    }
    forall i, j | 0 <= i <= j < 1980
      ensures t[i].minute <= t[j].minute
    {
      DivMonotone(i, j);
    }
  }

  lemma DivMonotone(i: nat, j: nat)
    requires i <= j
    ensures i / SquadSize <= j / SquadSize
  {
  }

  /** Every (minute, player) pair occurs in exactly one row of the generated table. */
  lemma EachPairOnce(draws: seq<Draw>, minute: int, k: nat)
    requires |draws| == MinuteCount * SquadSize
    requires 1 <= minute <= MinuteCount && k < SquadSize
    ensures (minute - 1) * SquadSize + k < |MatchTable(draws)|
    ensures MatchTable(draws)[(minute - 1) * SquadSize + k].minute == minute
    ensures MatchTable(draws)[(minute - 1) * SquadSize + k].player == Roster()[k]
    ensures forall j ::
      (0 <= j < |MatchTable(draws)| && MatchTable(draws)[j].minute == minute && MatchTable(draws)[j].player == Roster()[k])
      ==> j == (minute - 1) * SquadSize + k
  {
    var t := MatchTable(draws);
    BlockIndex(minute - 1, k);
    forall j | 0 <= j < |t| && t[j].minute == minute && t[j].player == Roster()[k]
      ensures j == (minute - 1) * SquadSize + k
    {
      RosterDistinct(j % SquadSize, k);
    }
  }

  /** Every roster label occurs as a player of the generated table. */
  lemma RosterInTable(draws: seq<Draw>, k: nat)
    requires |draws| == MinuteCount * SquadSize && k < SquadSize
    ensures Roster()[k] in KeysOf(MatchTable(draws), PlayerOf)
  {
    var t := MatchTable(draws);
    KeysOfMember(t, PlayerOf, k);
    BlockIndex(0, k);
    assert t[k] == RowAt(k, draws[k]);
    assert PlayerOf(t[k]) == Roster()[k];
  }

  /** A table whose row `i` belongs to roster slot `i % 22` and has an event, as the generated table does. */
  ghost predicate RosterCycle(t: seq<Record>)
  {
    forall i :: 0 <= i < |t| ==> t[i].player == Roster()[i % SquadSize] && HasEvent(t[i])
  }

  /** Each block of 22 consecutive rows of such a table holds the player in roster slot `k` once. */
  lemma BlockCountsOne(t: seq<Record>, m: nat, k: nat)
    requires RosterCycle(t)
    requires m * SquadSize + SquadSize <= |t| && k < SquadSize
    ensures CountKey(t[m * SquadSize..m * SquadSize + SquadSize], PlayerOf, HasEvent, Roster()[k]) == 1
  {
    var block := t[m * SquadSize..m * SquadSize + SquadSize];
    forall j | 0 <= j < |block| && j != k
      ensures !(PlayerOf(block[j]) == Roster()[k] && HasEvent(block[j]))
    {
      BlockIndex(m, j);
      if block[j].player == Roster()[k] { RosterDistinct(j, k); }
    }
    BlockIndex(m, k);
    CountKeyUnique(block, PlayerOf, HasEvent, Roster()[k], k);
  }

  /** The first `m` blocks of such a table count `m` events for each player. */
  lemma {:induction false} PrefixCountsBlocks(t: seq<Record>, m: nat, k: nat)
    requires RosterCycle(t)
    requires m * SquadSize <= |t| && k < SquadSize
    ensures CountKey(t[..m * SquadSize], PlayerOf, HasEvent, Roster()[k]) == m
  {
    if m == 0 {
      assert t[..0] == [];
    } else {
      var lo := (m - 1) * SquadSize;
      assert m * SquadSize == lo + SquadSize;
      PrefixCountsBlocks(t, m - 1, k);
      BlockCountsOne(t, m - 1, k);
      CountKeyExtend(t, lo, lo + SquadSize, PlayerOf, HasEvent, Roster()[k]);
    }
  }

  /**
   * In the generated table every player has exactly one counted event per
   * minute, so `groupby("player")["event"].count()` is 90 for every player.
   */
  lemma EveryPlayerCountsNinety(draws: seq<Draw>, k: nat)
    requires |draws| == MinuteCount * SquadSize
    requires forall i :: 0 <= i < |draws| ==> draws[i].event != Missing
    requires k < SquadSize
    ensures CountKey(MatchTable(draws), PlayerOf, HasEvent, Roster()[k]) == MinuteCount
  {
    var t := MatchTable(draws);
    assert RosterCycle(t);
    PrefixCountsBlocks(t, MinuteCount, k);
    assert t[..MinuteCount * SquadSize] == t;
  }
}
