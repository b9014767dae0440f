/**
 * Generic operations on a flat table held as a sequence of rows: boolean-mask
 * selection (`df[mask]`), counting rows per key, and the result of a pandas
 * `groupby(key)[column].count()` / `groupby(key).size()` / `value_counts()`,
 * represented as an association list of groups with distinct keys.
 */
module Table {

  /** A predicate that accepts every row; counting with it is `size()`. */
  predicate Always<T>(x: T) { true }

  /** The rows of `s` that `keep` accepts, in their original order. */
  function Select<T(!new)>(s: seq<T>, keep: T -> bool): (r: seq<T>)
    ensures |r| <= |s|
    ensures forall x :: x in r ==> x in s && keep(x)
    ensures forall i :: 0 <= i < |s| && keep(s[i]) ==> s[i] in r
    ensures |r| == 0 <==> forall i :: 0 <= i < |s| ==> !keep(s[i])
    ensures forall x :: multiset(r)[x] == if keep(x) then multiset(s)[x] else 0
  {
    if s == [] then []
    else
      assert s == [s[0]] + s[1..];
      if keep(s[0]) then [s[0]] + Select(s[1..], keep)
      else Select(s[1..], keep)
  }

  /** Selecting with a predicate that accepts everything keeps the table unchanged. */
  lemma {:induction false} SelectAll<T(!new)>(s: seq<T>, keep: T -> bool)
    requires forall x :: keep(x)
    ensures Select(s, keep) == s
  {
    if s != [] {
      SelectAll(s[1..], keep);
    }
  }

  /** A stricter mask never selects more rows. */
  lemma {:induction false} SelectMonotone<T(!new)>(s: seq<T>, p: T -> bool, q: T -> bool)
    requires forall x :: p(x) ==> q(x)
    ensures |Select(s, p)| <= |Select(s, q)|
  {
    if s != [] {
      SelectMonotone(s[1..], p, q);
    }
  }

  /** Number of rows of `s` whose key is `k` and that `counted` accepts. */
  function CountKey<T, K(==)>(s: seq<T>, key: T -> K, counted: T -> bool, k: K): nat
  {
    if s == [] then 0
    else (if key(s[0]) == k && counted(s[0]) then 1 else 0) + CountKey(s[1..], key, counted, k)
  }

  /** Counting per key is selecting with the conjunction of the key test and the count test. */
  lemma {:induction false} CountKeyIsSelect<T(!new), K>(s: seq<T>, key: T -> K, counted: T -> bool, k: K, p: T -> bool)
    requires forall x :: p(x) <==> key(x) == k && counted(x)
    ensures CountKey(s, key, counted, k) == |Select(s, p)|
  {
    if s != [] {
      CountKeyIsSelect(s[1..], key, counted, k, p);
    }
  }

  /** Filtering first and then counting every row is counting the filtered rows in place. */
  lemma {:induction false} CountKeyOfSelect<T(!new), K>(s: seq<T>, keep: T -> bool, key: T -> K)
    ensures forall k :: CountKey(Select(s, keep), key, Always, k) == CountKey(s, key, keep, k)
  {
    if s != [] {
      CountKeyOfSelect(s[1..], keep, key);
    }
  }

  /** When every row with key `k` is counted anyway, the count test makes no difference. */
  lemma {:induction false} CountKeyCountedByKey<T, K>(s: seq<T>, key: T -> K, counted: T -> bool, k: K)
    requires forall x :: key(x) == k ==> counted(x)
    ensures CountKey(s, key, counted, k) == CountKey(s, key, Always, k)
  {
    if s != [] {
      CountKeyCountedByKey(s[1..], key, counted, k);
    }
  }

  /** Counting per key distributes over concatenation of tables. */
  lemma {:induction false} CountKeyAppend<T, K>(a: seq<T>, b: seq<T>, key: T -> K, counted: T -> bool, k: K)
    ensures CountKey(a + b, key, counted, k) == CountKey(a, key, counted, k) + CountKey(b, key, counted, k)
  {
    if a == [] {
      assert a + b == b;
    } else {
      assert (a + b)[1..] == a[1..] + b;
      CountKeyAppend(a[1..], b, key, counted, k);
    }
  }

  /** The count over a prefix extended by one slice is the sum of the two counts. */
  lemma CountKeyExtend<T, K>(t: seq<T>, lo: nat, hi: nat, key: T -> K, counted: T -> bool, k: K)
    requires lo <= hi <= |t|
    ensures CountKey(t[..hi], key, counted, k) == CountKey(t[..lo], key, counted, k) + CountKey(t[lo..hi], key, counted, k)
  {
    assert t[..hi] == t[..lo] + t[lo..hi];
    CountKeyAppend(t[..lo], t[lo..hi], key, counted, k);
  }

  /** No row with key `k` is counted: the count is 0. */
  lemma {:induction false} CountKeyNone<T, K>(s: seq<T>, key: T -> K, counted: T -> bool, k: K)
    requires forall j :: 0 <= j < |s| ==> !(key(s[j]) == k && counted(s[j]))
    ensures CountKey(s, key, counted, k) == 0
  {
    if s != [] {
      CountKeyNone(s[1..], key, counted, k);
    }
  }

  /** Exactly one row, at index `p`, has key `k` and is counted: the count is 1. */
  lemma {:induction false} CountKeyUnique<T, K>(s: seq<T>, key: T -> K, counted: T -> bool, k: K, p: nat)
    requires p < |s| && key(s[p]) == k && counted(s[p])
    requires forall j :: 0 <= j < |s| && j != p ==> !(key(s[j]) == k && counted(s[j]))
    ensures CountKey(s, key, counted, k) == 1
  {
    if p == 0 {
      CountKeyNone(s[1..], key, counted, k);
    } else {
      CountKeyUnique(s[1..], key, counted, k, p - 1);
    }
  }

  /** One group of a grouped count: its key and the number of rows counted under it. */
  datatype Group<K> = Group(key: K, size: nat)

  /** The keys of a grouping. */
  function Keys<K>(g: seq<Group<K>>): set<K>
  {
    if g == [] then {} else {g[0].key} + Keys(g[1..])
  }

  /** No key labels two groups. */
  predicate DistinctKeys<K(==)>(g: seq<Group<K>>)
  {
    g == [] || (g[0].key !in Keys(g[1..]) && DistinctKeys(g[1..]))
  }

  /** The count stored under `k`, or 0 when there is no such group (pandas `Series.get(k, 0)`). */
  function Size<K(==)>(g: seq<Group<K>>, k: K): nat
  {
    if g == [] then 0
    else if g[0].key == k then g[0].size
    else Size(g[1..], k)
  }

  /** The sum of all group counts. */
  function Total<K>(g: seq<Group<K>>): nat
  {
    if g == [] then 0 else g[0].size + Total(g[1..])
  }

  /** Every group's key is among the keys. */
  lemma {:induction false} KeyAt<K>(g: seq<Group<K>>, j: nat)
    requires j < |g|
    ensures g[j].key in Keys(g)
  {
    if j > 0 {
      KeyAt(g[1..], j - 1);
    }
  }

  /** A key that labels no group has count 0. */
  lemma {:induction false} SizeOutsideKeys<K>(g: seq<Group<K>>, k: K)
    requires k !in Keys(g)
    ensures Size(g, k) == 0
  {
    if g != [] {
      SizeOutsideKeys(g[1..], k);
    }
  }

  /** A key of a grouping labels some group, whose count is the one `Size` reports. */
  lemma {:induction false} SizeWitness<K>(g: seq<Group<K>>, k: K) returns (i: nat)
    requires k in Keys(g)
    ensures i < |g| && g[i].key == k && Size(g, k) == g[i].size
  {
    if g[0].key == k {
      i := 0;
    } else {
      var j := SizeWitness(g[1..], k);
      i := j + 1;
    }
  }

  /** In a grouping with distinct keys, every group's count is the one `Size` reports for its key. */
  lemma {:induction false} SizeOfMember<K>(g: seq<Group<K>>, i: nat)
    requires DistinctKeys(g) && i < |g|
    ensures Size(g, g[i].key) == g[i].size
  {
    if i > 0 {
      assert g[1..][i - 1] == g[i];
      KeyAt(g[1..], i - 1);
      SizeOfMember(g[1..], i - 1);
    }
  }

  /** Distinct keys, stated on indices: two different groups have different keys. */
  lemma {:induction false} DistinctKeysAt<K>(g: seq<Group<K>>, i: nat, j: nat)
    requires DistinctKeys(g) && i < j < |g|
    ensures g[i].key != g[j].key
  {
    if i > 0 {
      DistinctKeysAt(g[1..], i - 1, j - 1);
    } else {
      assert g[1..][j - 1] == g[j];
      KeyAt(g[1..], j - 1);
    }
  }

  /** In a grouping with distinct keys each group occurs once. */
  lemma {:induction false} GroupOccursOnce<K>(g: seq<Group<K>>, b: nat)
    requires DistinctKeys(g) && b < |g|
    ensures multiset(g)[g[b]] == 1
  {
    assert g == [g[0]] + g[1..];
    if b == 0 {
      forall m | 0 <= m < |g| - 1 ensures g[1..][m] != g[0] {
        KeyAt(g[1..], m);
      }
      assert g[0] !in g[1..];
    } else {
      assert g[1..][b - 1] == g[b];
      GroupOccursOnce(g[1..], b - 1);
      KeyAt(g[1..], b - 1);
    }
  }

  /** Distinct keys: the number of groups is the number of keys. */
  lemma {:induction false} KeyCardinality<K>(g: seq<Group<K>>)
    requires DistinctKeys(g)
    ensures |Keys(g)| == |g|
  {
    if g != [] {
      KeyCardinality(g[1..]);
    }
  }

  /** When every group counts at least one row, the groups count at least as many rows as there are groups. */
  lemma {:induction false} TotalAtLeastLength<K>(g: seq<Group<K>>)
    requires forall i :: 0 <= i < |g| ==> g[i].size > 0
    ensures Total(g) >= |g|
  {
    if g != [] {
      TotalAtLeastLength(g[1..]);
    }
  }

  /** When no group counts more than `bound` rows, all groups together count at most `|g| * bound`. */
  lemma {:induction false} TotalAtMost<K>(g: seq<Group<K>>, bound: nat)
    requires forall i :: 0 <= i < |g| ==> g[i].size <= bound
    ensures Total(g) <= |g| * bound
  {
    if g != [] {
      TotalAtMost(g[1..], bound);
    }
  }

  /** Record `inc` more rows under key `k`: grow its group, or append a new group for `k`. */
  function Tally<K(==,!new)>(g: seq<Group<K>>, k: K, inc: nat): (r: seq<Group<K>>)
    ensures Keys(r) == Keys(g) + {k}
    ensures DistinctKeys(g) ==> DistinctKeys(r)
    ensures forall k' :: Size(r, k') == Size(g, k') + (if k' == k then inc else 0)
    ensures Total(r) == Total(g) + inc
    ensures inc > 0 && (forall i :: 0 <= i < |g| ==> g[i].size > 0) ==> forall i :: 0 <= i < |r| ==> r[i].size > 0
  {
    if g == [] then [Group(k, inc)]
    else if g[0].key == k then [Group(k, g[0].size + inc)] + g[1..]
    else [g[0]] + Tally(g[1..], k, inc)
  }

  /** The keys occurring in a table. */
  function KeysOf<T, K>(s: seq<T>, key: T -> K): set<K>
  {
    if s == [] then {} else {key(s[0])} + KeysOf(s[1..], key)
  }

  /** The key of every row occurs in the table's keys. */
  lemma {:induction false} KeysOfMember<T, K>(s: seq<T>, key: T -> K, j: nat)
    requires j < |s|
    ensures key(s[j]) in KeysOf(s, key)
  {
    if j > 0 {
      KeysOfMember(s[1..], key, j - 1);
    }
  }

  /** A set holding `n` pairwise different values has at least `n` elements. */
  lemma {:induction false} DistinctMembersCardinality<K>(s: seq<K>, n: nat, ks: set<K>)
    requires n <= |s|
    requires forall a, b :: 0 <= a < b < n ==> s[a] != s[b]
    requires forall a :: 0 <= a < n ==> s[a] in ks
    ensures |ks| >= n
  {
    if n > 0 {
      var rest := ks - {s[n - 1]};
      DistinctMembersCardinality(s, n - 1, rest);
    }
  }

  /** A key occurring in a table is the key of one of its rows. */
  lemma {:induction false} KeysOfWitness<T, K>(s: seq<T>, key: T -> K, k: K) returns (j: nat)
    requires k in KeysOf(s, key)
    ensures j < |s| && key(s[j]) == k
  {
    if key(s[0]) == k {
      j := 0;
    } else {
      var j' := KeysOfWitness(s[1..], key, k);
      j := j' + 1;
    }
  }

  /**
   * `groupby(key)[column].count()`: one group per key occurring in `s`, counting
   * the rows under that key that `counted` accepts (the non-missing cells).
   */
  function GroupCount<T(!new), K(==,!new)>(s: seq<T>, key: T -> K, counted: T -> bool): (g: seq<Group<K>>)
    ensures DistinctKeys(g)
    ensures Keys(g) == KeysOf(s, key)
    ensures forall k :: Size(g, k) == CountKey(s, key, counted, k)
    ensures Total(g) == |Select(s, counted)|
    ensures (forall x :: x in s ==> counted(x)) ==> forall i :: 0 <= i < |g| ==> g[i].size > 0
  {
    if s == [] then []
    else
      Tally(GroupCount(s[1..], key, counted), key(s[0]), if counted(s[0]) then 1 else 0)
  }
}
