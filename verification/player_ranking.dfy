/**
 * Player role effectiveness: the number of recorded (non-missing) events per
 * player, sorted by decreasing count, and the first five entries.
 */
module PlayerRanking {

  import opened Table
  import opened MatchData

  /** How many entries `Series.head()` shows by default. */
  const TopCount: nat := 5

  /**
   * `df.groupby("player")["event"].count()`: one group per player in the
   * table, holding the number of that player's rows whose event is not missing.
   */
  function RoleScore(t: seq<Record>): (g: seq<Group<string>>)
    ensures DistinctKeys(g)
    ensures Keys(g) == KeysOf(t, PlayerOf)
    ensures forall p :: Size(g, p) == CountKey(t, PlayerOf, HasEvent, p)
    ensures Total(g) == |Select(t, HasEvent)|
  {
    GroupCount(t, PlayerOf, HasEvent)
  }

  predicate NonIncreasing<K>(s: seq<Group<K>>)
  {
    forall i, j :: 0 <= i < j < |s| ==> s[i].size >= s[j].size
  }

  /** Insert `x` into a list ordered by decreasing count. */
  function InsertBySize<K(==)>(x: Group<K>, s: seq<Group<K>>): (r: seq<Group<K>>)
    requires NonIncreasing(s)
    ensures |r| == |s| + 1
    ensures NonIncreasing(r)
    ensures multiset(r) == multiset(s) + multiset{x}
    ensures r[0] == x || (|s| > 0 && r[0] == s[0])
  {
    if s == [] || x.size >= s[0].size then
      PrependNonIncreasing(x, s);
      [x] + s
    else
      assert s == [s[0]] + s[1..];
      TailNonIncreasing(s);
      var rest := InsertBySize(x, s[1..]);
      PrependNonIncreasing(s[0], rest);
      [s[0]] + rest
  }

  lemma TailNonIncreasing<K>(s: seq<Group<K>>)
    requires NonIncreasing(s) && |s| > 0
    ensures NonIncreasing(s[1..])
  {
  }

  lemma PrependNonIncreasing<K>(a: Group<K>, s: seq<Group<K>>)
    requires NonIncreasing(s)
    requires s == [] || a.size >= s[0].size
    ensures NonIncreasing([a] + s)
  {
  }

  /**
   * `sort_values(ascending=False)`: the groups reordered by decreasing count.
   * The order among equal counts is not specified.
   */
  function SortBySize<K(==)>(g: seq<Group<K>>): (r: seq<Group<K>>)
    ensures |r| == |g|
    ensures NonIncreasing(r)
    ensures multiset(r) == multiset(g)
  {
    if g == [] then []
    else
      assert g == [g[0]] + g[1..];
      InsertBySize(g[0], SortBySize(g[1..]))
  }

  /** Inserting a group adds its count to the total. */
  lemma {:induction false} InsertKeepsTotal<K>(x: Group<K>, s: seq<Group<K>>)
    requires NonIncreasing(s)
    ensures Total(InsertBySize(x, s)) == x.size + Total(s)
  {
    if s == [] || x.size >= s[0].size {
      assert ([x] + s)[1..] == s;
    } else {
      TailNonIncreasing(s);
      InsertKeepsTotal(x, s[1..]);
      var rest := InsertBySize(x, s[1..]);
      assert ([s[0]] + rest)[1..] == rest;
    }
  }

  /** Sorting moves counts around but keeps their sum. */
  lemma {:induction false} SortKeepsTotal<K>(g: seq<Group<K>>)
    ensures Total(SortBySize(g)) == Total(g)
  {
    if g != [] {
      SortKeepsTotal(g[1..]);
      InsertKeepsTotal(g[0], SortBySize(g[1..]));
    }
  }

  /**
   * `role_score`: every player's count of recorded events, in decreasing
   * order; the counts over all players add up to the rows with an event.
   */
  function Ranking(t: seq<Record>): (ranked: seq<Group<string>>)
    ensures |ranked| == |RoleScore(t)|
    ensures NonIncreasing(ranked)
    ensures multiset(ranked) == multiset(RoleScore(t))
    ensures Total(ranked) == |Select(t, HasEvent)|
  {
    SortKeepsTotal(RoleScore(t));
    SortBySize(RoleScore(t))
  }

  /**
   * The first `n` groups by decreasing count: each a group of `g`, each key
   * once, and no group of `g` left out with a larger count than a listed one.
   */
  function Head<K(==)>(g: seq<Group<K>>, n: nat): (top: seq<Group<K>>)
    requires DistinctKeys(g)
    ensures |top| == if |g| < n then |g| else n
    ensures top == SortBySize(g)[..|top|]
    ensures NonIncreasing(top)
    ensures forall i :: 0 <= i < |top| ==> top[i] in g
    ensures forall i, j :: 0 <= i < j < |top| ==> top[i].key != top[j].key
    ensures forall x :: x in g && x !in top ==> forall i :: 0 <= i < |top| ==> x.size <= top[i].size
  {
    var sorted := SortBySize(g);
    PermutationFacts(g, sorted);
    var len := if |sorted| < n then |sorted| else n;
    PrefixOfSorted(g, sorted, len);
    sorted[..len]
  }

  /** The facts `Head` promises, stated for any prefix of a sorted permutation. */
  lemma PrefixOfSorted<K>(g: seq<Group<K>>, sorted: seq<Group<K>>, n: nat)
    requires DistinctKeys(g) && multiset(sorted) == multiset(g) && NonIncreasing(sorted) && n <= |sorted|
    ensures NonIncreasing(sorted[..n])
    ensures forall i :: 0 <= i < n ==> sorted[..n][i] in g
    ensures forall i, j :: 0 <= i < j < n ==> sorted[..n][i].key != sorted[..n][j].key
    ensures forall x :: x in g && x !in sorted[..n] ==> forall i :: 0 <= i < n ==> x.size <= sorted[..n][i].size
  {
    PermutationFacts(g, sorted);
    HeadDistinct(g, sorted, n);
    HeadDominates(g, sorted, n);
  }

  /** A permutation has the same length and the same members. */
  lemma PermutationFacts<T>(g: seq<T>, sorted: seq<T>)
    requires multiset(sorted) == multiset(g)
    ensures |sorted| == |g|
    ensures forall i :: 0 <= i < |sorted| ==> sorted[i] in g
    ensures forall x :: x in g ==> x in sorted
  {
    assert |multiset(sorted)| == |multiset(g)|;
    forall i | 0 <= i < |sorted| ensures sorted[i] in g {
      assert sorted[i] in multiset(sorted);
    }
    forall x | x in g ensures x in sorted {
      assert x in multiset(g);
    }
  }

  /** A prefix of a permutation of a grouping with distinct keys lists each key once. */
  lemma HeadDistinct<K>(g: seq<Group<K>>, sorted: seq<Group<K>>, n: nat)
    requires DistinctKeys(g) && multiset(sorted) == multiset(g) && n <= |sorted|
    ensures forall i, j :: 0 <= i < j < n ==> sorted[i].key != sorted[j].key
  {
    PermutationFacts(g, sorted);
    forall i, j | 0 <= i < j < n ensures sorted[i].key != sorted[j].key {
      if sorted[i].key == sorted[j].key {
        var bi :| 0 <= bi < |g| && g[bi] == sorted[i];
        var bj :| 0 <= bj < |g| && g[bj] == sorted[j];
        if bi < bj { DistinctKeysAt(g, bi, bj); } else if bj < bi { DistinctKeysAt(g, bj, bi); }
        GroupOccursOnce(g, bi);
        TwiceInSequence(sorted, i, j);
      }
    }
  }

  /** No group outside the first `n` of a sorted permutation has a larger count than one inside. */
  lemma HeadDominates<K>(g: seq<Group<K>>, sorted: seq<Group<K>>, n: nat)
    requires multiset(sorted) == multiset(g) && NonIncreasing(sorted) && n <= |sorted|
    ensures forall x :: x in g && x !in sorted[..n] ==> forall i :: 0 <= i < n ==> x.size <= sorted[i].size
  {
    forall x | x in g && x !in sorted[..n] ensures forall i :: 0 <= i < n ==> x.size <= sorted[i].size {
      assert x in multiset(sorted);
      var j :| 0 <= j < |sorted| && sorted[j] == x;
      assert j >= n;
    }
  }

  /** A value at two different indices occurs at least twice in the multiset. */
  lemma TwiceInSequence<T>(s: seq<T>, i: nat, j: nat)
    requires i < j < |s| && s[i] == s[j]
    ensures multiset(s)[s[i]] >= 2
  {
    assert s == s[..i] + [s[i]] + s[i + 1..j] + [s[j]] + s[j + 1..];
  }

  /**
   * `role_score.head()`: the first five players by decreasing event count, each
   * with that player's number of recorded events, each player once, and no
   * player left out with a larger count than a listed one.
   */
  function TopPlayers(t: seq<Record>): (top: seq<Group<string>>)
    ensures |top| == if |RoleScore(t)| < TopCount then |RoleScore(t)| else TopCount
    ensures top == Ranking(t)[..|top|]
    ensures NonIncreasing(top)
    ensures forall i :: 0 <= i < |top| ==> top[i].key in KeysOf(t, PlayerOf)
    ensures forall i :: 0 <= i < |top| ==> top[i].size == CountKey(t, PlayerOf, HasEvent, top[i].key)
    ensures forall i, j :: 0 <= i < j < |top| ==> top[i].key != top[j].key
    ensures forall x :: x in RoleScore(t) && x !in top ==> forall i :: 0 <= i < |top| ==> x.size <= top[i].size
  {
    var g := RoleScore(t);
    var top := Head(g, TopCount);
    MembersKeepSizes(g, top);
    top
  }

  /** Groups taken from a grouping with distinct keys keep their key and their size there. */
  lemma MembersKeepSizes<K>(g: seq<Group<K>>, top: seq<Group<K>>)
    requires DistinctKeys(g)
    requires forall i :: 0 <= i < |top| ==> top[i] in g
    ensures forall i :: 0 <= i < |top| ==> top[i].key in Keys(g) && top[i].size == Size(g, top[i].key)
  {
    forall i | 0 <= i < |top| ensures top[i].key in Keys(g) && top[i].size == Size(g, top[i].key) {
      assert top[i] in g;
      var b :| 0 <= b < |g| && g[b] == top[i];
      KeyAt(g, b);
      SizeOfMember(g, b);
    }
  }

  /**
   * On the generated table (no missing events) every player has 90 recorded
   * events, so every count the ranking shows is 90: the order among the
   * listed players is decided by the sort alone.
   */
  lemma GeneratedRankingIsFlat(draws: seq<Draw>)
    requires |draws| == MinuteCount * SquadSize
    requires forall i :: 0 <= i < |draws| ==> draws[i].event != Missing
    ensures forall i :: 0 <= i < |TopPlayers(MatchTable(draws))| ==> TopPlayers(MatchTable(draws))[i].size == MinuteCount
  {
    var t := MatchTable(draws);
    var top := TopPlayers(t);
    forall i | 0 <= i < |top| ensures top[i].size == MinuteCount {
      var j := KeysOfWitness(t, PlayerOf, top[i].key);
      assert t[j] == RowAt(j, draws[j]);
      EveryPlayerCountsNinety(draws, j % SquadSize);
    }
  }

  /** The generated table has 22 players, so the ranking shows five of them. */
  lemma GeneratedRankingShowsFive(draws: seq<Draw>)
    requires |draws| == MinuteCount * SquadSize
    ensures |TopPlayers(MatchTable(draws))| == TopCount
  {
    var t := MatchTable(draws);
    forall k | 0 <= k < TopCount ensures Roster()[k] in KeysOf(t, PlayerOf) {
      RosterInTable(draws, k);
    }
    FivePlayersShowFive(t);
  }

  /** A table with at least five different roster players shows five of them. */
  lemma FivePlayersShowFive(t: seq<Record>)
    requires forall k :: 0 <= k < TopCount ==> Roster()[k] in KeysOf(t, PlayerOf)
    ensures |TopPlayers(t)| == TopCount
  {
    var g := RoleScore(t);
    RosterAllDistinct();
    DistinctMembersCardinality(Roster(), TopCount, Keys(g));
    KeyCardinality(g);
  }
}
