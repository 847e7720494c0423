/**
 * The relational operators the queries are built from, as functions on sequences:
 * WHERE (Filter), ORDER BY ... DESC (a stable insertion sort), LIMIT (Take),
 * SUM, and GROUP BY ... COUNT(*) (GroupCounts).
 */
module Ordering {

  ghost predicate SortedDesc<T>(s: seq<T>, key: T -> int) {
    forall i, j | 0 <= i < j < |s| :: key(s[i]) >= key(s[j])
  }

  /** Inserts `x` before the first element whose key is not larger. */
  function InsertDesc<T>(x: T, s: seq<T>, key: T -> int): (r: seq<T>)
    ensures |r| == |s| + 1
    ensures multiset(r) == multiset(s) + multiset{x}
  {
    if s == [] || key(x) >= key(s[0]) then [x] + s
    else
      assert s == [s[0]] + s[1..];
      [s[0]] + InsertDesc(x, s[1..], key)
  }

  /** `ORDER BY key DESC`; rows with equal keys keep their input order. */
  function SortDesc<T>(s: seq<T>, key: T -> int): (r: seq<T>)
    ensures |r| == |s|
    ensures multiset(r) == multiset(s)
  {
    if s == [] then []
    else
      assert s == [s[0]] + s[1..];
      InsertDesc(s[0], SortDesc(s[1..], key), key)
  }

  lemma {:induction false} InsertDescSorted<T>(x: T, s: seq<T>, key: T -> int)
    requires SortedDesc(s, key)
    ensures SortedDesc(InsertDesc(x, s, key), key)
  {
    if s != [] && key(x) < key(s[0]) {
      InsertDescSorted(x, s[1..], key);
      var rest := InsertDesc(x, s[1..], key);
      forall j | 0 <= j < |rest| ensures key(s[0]) >= key(rest[j]) {
        assert rest[j] in multiset(rest);
        if rest[j] != x {
          assert rest[j] in multiset(s[1..]);
          var k :| 0 <= k < |s[1..]| && s[1..][k] == rest[j];
          assert s[k + 1] == rest[j];
        }
      }
    }
  }

  /** The sort's output is in descending key order. */
  lemma {:induction false} SortDescSorted<T>(s: seq<T>, key: T -> int)
    ensures SortedDesc(SortDesc(s, key), key)
  {
    if s != [] {
      SortDescSorted(s[1..], key);
      InsertDescSorted(s[0], SortDesc(s[1..], key), key);
    }
  }

  /** Every element of the sorted sequence comes from the input, and conversely. */
  lemma SortDescSameElements<T>(s: seq<T>, key: T -> int, x: T)
    ensures x in SortDesc(s, key) <==> x in s
  {
    assert x in SortDesc(s, key) <==> x in multiset(SortDesc(s, key));
    assert x in s <==> x in multiset(s);
  }

  /** `LIMIT n`, and Python's `s[:n]`. */
  function Take<T>(s: seq<T>, n: nat): (r: seq<T>)
    ensures |r| <= n && |r| <= |s|
    ensures r == s[..|r|]
    ensures |s| <= n ==> r == s
    ensures |s| > n ==> |r| == n
  {
    if |s| <= n then s else s[..n]
  }

  /** `WHERE p`, keeping the order of the input. */
  function Filter<T>(s: seq<T>, p: T -> bool): (r: seq<T>)
    ensures |r| <= |s|
    ensures forall x | x in r :: p(x) && x in s
    ensures forall x | x in s && p(x) :: x in r
  {
    if s == [] then [] else (if p(s[0]) then [s[0]] else []) + Filter(s[1..], p)
  }

  /** Filtering distributes over concatenation. */
  lemma {:induction false} FilterConcat<T>(a: seq<T>, b: seq<T>, p: T -> bool)
    ensures Filter(a + b, p) == Filter(a, p) + Filter(b, p)
  {
    if a != [] {
      assert (a + b)[1..] == a[1..] + b;
      FilterConcat(a[1..], b, p);
    } else {
      assert a + b == b;
    }
  }

  /** Nothing passes the condition exactly when no element satisfies it. */
  lemma {:induction false} FilterEmpty<T>(s: seq<T>, p: T -> bool)
    ensures Filter(s, p) == [] <==> forall x | x in s :: !p(x)
  {
    if s != [] {
      FilterEmpty(s[1..], p);
      assert forall x | x in s :: x == s[0] || x in s[1..];
    }
  }

  /** A condition every row meets filters nothing out. */
  lemma {:induction false} FilterAll<T>(s: seq<T>, p: T -> bool)
    requires forall x | x in s :: p(x)
    ensures Filter(s, p) == s
  {
    if s != [] {
      assert forall x | x in s[1..] :: x in s;
      FilterAll(s[1..], p);
      assert s == [s[0]] + s[1..];
    }
  }

  /** `SUM(f(row))`. */
  function SumBy<T>(s: seq<T>, f: T -> nat): nat {
    if s == [] then 0 else f(s[0]) + SumBy(s[1..], f)
  }

  lemma {:induction false} SumByInsert<T>(x: T, s: seq<T>, key: T -> int, f: T -> nat)
    ensures SumBy(InsertDesc(x, s, key), f) == f(x) + SumBy(s, f)
  {
    if s != [] && key(x) < key(s[0]) {
      SumByInsert(x, s[1..], key, f);
    }
  }

  /** Sorting does not change a sum. */
  lemma {:induction false} SumBySort<T>(s: seq<T>, key: T -> int, f: T -> nat)
    ensures SumBy(SortDesc(s, key), f) == SumBy(s, f)
  {
    if s != [] {
      SumBySort(s[1..], key, f);
      SumByInsert(s[0], SortDesc(s[1..], key), key, f);
    }
  }

  /** Number of positions of `s` holding `k`. */
  function Occurrences<K(==)>(s: seq<K>, k: K): (n: nat)
    ensures n <= |s|
  {
    if s == [] then 0 else Occurrences(s[..|s| - 1], k) + (if s[|s| - 1] == k then 1 else 0)
  }

  /** One row of `GROUP BY key` with `COUNT(*)`. */
  datatype Group<K> = Group(key: K, count: nat)

  function GroupCount<K>(g: Group<K>): nat { g.count }

  /** The count as a sort key. */
  function CountKey<K>(g: Group<K>): int { g.count }

  /** The keys that have a group. */
  ghost function Keys<K>(g: seq<Group<K>>): set<K> {
    if g == [] then {} else {g[0].key} + Keys(g[1..])
  }

  ghost predicate DistinctKeys<K>(g: seq<Group<K>>) {
    g == [] || (g[0].key !in Keys(g[1..]) && DistinctKeys(g[1..]))
  }

  lemma {:induction false} KeysAt<K>(g: seq<Group<K>>, i: nat)
    requires i < |g|
    ensures g[i].key in Keys(g)
  {
    if i > 0 {
      KeysAt(g[1..], i - 1);
    }
  }

  lemma {:induction false} KeysWitness<K>(g: seq<Group<K>>, k: K)
    requires k in Keys(g)
    ensures exists x :: x in g && x.key == k
  {
    if g[0].key != k {
      KeysWitness(g[1..], k);
      var x :| x in g[1..] && x.key == k;
      assert x in g;
    }
  }

  /** The count recorded for `k`, or 0 when `k` has no group. */
  function CountOf<K(==)>(g: seq<Group<K>>, k: K): nat {
    if g == [] then 0 else if g[0].key == k then g[0].count else CountOf(g[1..], k)
  }

  /** Adds one row with key `k` to the groups. */
  function Bump<K(==)>(g: seq<Group<K>>, k: K): (r: seq<Group<K>>)
    ensures |r| == |g| || |r| == |g| + 1
  {
    if g == [] then [Group(k, 1)]
    else if g[0].key == k then [Group(k, g[0].count + 1)] + g[1..]
    else [g[0]] + Bump(g[1..], k)
  }

  /** The groups of `keys`, in order of first appearance. */
  function GroupCounts<K(==)>(keys: seq<K>): seq<Group<K>> {
    if keys == [] then [] else Bump(GroupCounts(keys[..|keys| - 1]), keys[|keys| - 1])
  }

  lemma {:induction false} BumpKeys<K>(g: seq<Group<K>>, k: K)
    ensures Keys(Bump(g, k)) == Keys(g) + {k}
  {
    if g != [] && g[0].key != k {
      BumpKeys(g[1..], k);
      assert Bump(g, k)[1..] == Bump(g[1..], k);
    } else if g != [] {
      assert Bump(g, k)[1..] == g[1..];
    }
  }

  lemma {:induction false} BumpDistinct<K>(g: seq<Group<K>>, k: K)
    requires DistinctKeys(g)
    ensures DistinctKeys(Bump(g, k))
  {
    if g != [] && g[0].key != k {
      BumpDistinct(g[1..], k);
      BumpKeys(g[1..], k);
      assert Bump(g, k)[1..] == Bump(g[1..], k);
    } else if g != [] {
      assert Bump(g, k)[1..] == g[1..];
    }
  }

  lemma {:induction false} BumpCount<K>(g: seq<Group<K>>, k: K, k': K)
    ensures CountOf(Bump(g, k), k') == CountOf(g, k') + (if k' == k then 1 else 0)
  {
    if g != [] && g[0].key != k {
      BumpCount(g[1..], k, k');
      assert Bump(g, k)[1..] == Bump(g[1..], k);
    } else if g != [] {
      assert Bump(g, k)[1..] == g[1..];
    }
  }

  lemma {:induction false} BumpSum<K>(g: seq<Group<K>>, k: K)
    ensures SumBy(Bump(g, k), GroupCount) == SumBy(g, GroupCount) + 1
  {
    if g != [] && g[0].key != k {
      BumpSum(g[1..], k);
      assert Bump(g, k)[1..] == Bump(g[1..], k);
    } else if g != [] {
      assert Bump(g, k)[1..] == g[1..];
    }
  }

  /**
   * `SELECT key, COUNT(*) ... GROUP BY key`: one group per distinct key, exactly the keys
   * that occur, each with its number of occurrences; the counts add up to the row count.
   */
  lemma {:induction false} GroupCountsFacts<K>(keys: seq<K>)
    ensures DistinctKeys(GroupCounts(keys))
    ensures forall k :: CountOf(GroupCounts(keys), k) == Occurrences(keys, k)
    ensures SumBy(GroupCounts(keys), GroupCount) == |keys|
    ensures forall k :: k in Keys(GroupCounts(keys)) <==> k in keys
  {
    if keys != [] {
      var init, last := keys[..|keys| - 1], keys[|keys| - 1];
      GroupCountsFacts(init);
      BumpDistinct(GroupCounts(init), last);
      BumpKeys(GroupCounts(init), last);
      BumpSum(GroupCounts(init), last);
      forall k ensures CountOf(GroupCounts(keys), k) == Occurrences(keys, k) {
        BumpCount(GroupCounts(init), last, k);
      }
      assert keys == init + [last];
      forall k ensures k in keys <==> k in init || k == last {
      }
    }
  }

  /** With distinct keys, `CountOf` reads back each group's own count. */
  lemma {:induction false} CountOfDistinct<K>(g: seq<Group<K>>, i: nat)
    requires DistinctKeys(g) && i < |g|
    ensures CountOf(g, g[i].key) == g[i].count
  {
    if i > 0 {
      KeysAt(g[1..], i - 1);
      CountOfDistinct(g[1..], i - 1);
    }
  }

  lemma {:induction false} OccurrencesPositive<K>(s: seq<K>, k: K)
    requires k in s
    ensures Occurrences(s, k) >= 1
  {
    if s[|s| - 1] != k {
      assert s == s[..|s| - 1] + [s[|s| - 1]];
      OccurrencesPositive(s[..|s| - 1], k);
    }
  }

  /**
   * Every group of `GROUP BY key` carries the number of rows with its key, at least one, and
   * every key that occurs has a group.
   */
  lemma GroupCountsExact<K>(keys: seq<K>)
    ensures forall x :: x in GroupCounts(keys) ==> x.key in keys && x.count == Occurrences(keys, x.key) >= 1
    ensures forall k :: k in keys ==> exists x :: x in GroupCounts(keys) && x.key == k
  {
    GroupCountsFacts(keys);
    var g := GroupCounts(keys);
    forall x | x in g ensures x.key in keys && x.count == Occurrences(keys, x.key) >= 1 {
      var i :| 0 <= i < |g| && g[i] == x;
      KeysAt(g, i);
      assert x.key in Keys(g);
      CountOfDistinct(g, i);
      OccurrencesPositive(keys, x.key);
    }
    forall k | k in keys ensures exists x :: x in g && x.key == k {
      KeysWitness(g, k);
    }
  }

  /** `GROUP BY key ORDER BY COUNT(*) DESC`. */
  function RankedCounts<K(==)>(keys: seq<K>): seq<Group<K>> {
    SortDesc(GroupCounts(keys), CountKey)
  }

  /** The ranked groups are in descending count order, read off at two positions. */
  lemma RankedCountsAt<K>(keys: seq<K>, i: nat, j: nat)
    requires i < j < |RankedCounts(keys)|
    ensures RankedCounts(keys)[i].count >= RankedCounts(keys)[j].count
  {
    RankedCountsOrder(keys);
    var r := RankedCounts(keys);
    assert CountKey(r[i]) >= CountKey(r[j]);
  }

  /** The ranked groups are in descending count order and their counts add up to the rows. */
  lemma RankedCountsOrder<K>(keys: seq<K>)
    ensures SortedDesc(RankedCounts(keys), CountKey)
    ensures SumBy(RankedCounts(keys), GroupCount) == |keys|
  {
    var g := GroupCounts(keys);
    SortDescSorted(g, CountKey);
    SumBySort(g, CountKey, GroupCount);
    GroupCountsFacts(keys);
  }

  /** Each ranked group holds the exact count of its key, and every key that occurs has one. */
  lemma RankedCountsExact<K>(keys: seq<K>)
    ensures forall x :: x in RankedCounts(keys) ==> x.key in keys && x.count == Occurrences(keys, x.key) >= 1
    ensures forall k :: k in keys ==> exists x :: x in RankedCounts(keys) && x.key == k
  {
    var g := GroupCounts(keys);
    var r := RankedCounts(keys);
    assert r == SortDesc(g, CountKey);
    GroupCountsExact(keys);
    forall x | x in r ensures x.key in keys && x.count == Occurrences(keys, x.key) >= 1 {
      SortDescSameElements(g, CountKey, x);
    }
    forall k | k in keys ensures exists x :: x in r && x.key == k {
      var x :| x in g && x.key == k;
      SortDescSameElements(g, CountKey, x);
    }
  }

  /** Groups with distinct keys are distinct values. */
  lemma {:induction false} DistinctKeysNoRepeats<K>(g: seq<Group<K>>)
    requires DistinctKeys(g)
    ensures forall x :: multiset(g)[x] <= 1
  {
    if g != [] {
      DistinctKeysNoRepeats(g[1..]);
      assert g == [g[0]] + g[1..];
      if g[0] in g[1..] {
        var i :| 0 <= i < |g[1..]| && g[1..][i] == g[0];
        KeysAt(g[1..], i);
      }
      forall x ensures multiset(g)[x] <= 1 {
        assert multiset(g)[x] == multiset([g[0]])[x] + multiset(g[1..])[x];
      }
    }
  }

  /** Two positions of a sequence in which no value repeats hold different values. */
  lemma NoRepeatsAt<T>(s: seq<T>, i: nat, j: nat)
    requires (forall x :: multiset(s)[x] <= 1) && i < j < |s|
    ensures s[i] != s[j]
  {
    assert s == s[..j] + s[j..];
    assert s[i] in s[..j] && s[j] in s[j..];
    assert multiset(s)[s[j]] == multiset(s[..j])[s[j]] + multiset(s[j..])[s[j]];
  }

  /**
   * Any reordering of the groups of `GROUP BY key` has one group per key: no key is listed
   * twice.
   */
  lemma GroupsKeysDistinct<K>(keys: seq<K>, r: seq<Group<K>>)
    requires multiset(r) == multiset(GroupCounts(keys))
    ensures forall i, j | 0 <= i < j < |r| :: r[i].key != r[j].key
  {
    var g := GroupCounts(keys);
    GroupCountsFacts(keys);
    GroupCountsExact(keys);
    DistinctKeysNoRepeats(g);
    forall x ensures multiset(r)[x] <= 1 {
      assert multiset(r)[x] == multiset(g)[x];
    }
    forall i, j | 0 <= i < j < |r| ensures r[i].key != r[j].key {
      assert r[i] in multiset(g) && r[j] in multiset(g);
      NoRepeatsAt(r, i, j);
    }
  }

  /** The ranked groups list each key once, and every key that occurs is listed. */
  lemma RankedCountsDistinct<K>(keys: seq<K>)
    ensures forall i, j | 0 <= i < j < |RankedCounts(keys)| :: RankedCounts(keys)[i].key != RankedCounts(keys)[j].key
  {
    GroupsKeysDistinct(keys, RankedCounts(keys));
  }

  function NegKey(g: Group<int>): int { -g.key }

  /** `GROUP BY bucket ORDER BY bucket`: a histogram over integer bucket numbers. */
  function Histogram(keys: seq<int>): seq<Group<int>> {
    SortDesc(GroupCounts(keys), NegKey)
  }

  /** The histogram's buckets are in strictly ascending order. */
  lemma HistogramAscending(keys: seq<int>)
    ensures forall i, j | 0 <= i < j < |Histogram(keys)| :: Histogram(keys)[i].key < Histogram(keys)[j].key
  {
    var h := Histogram(keys);
    SortDescSorted(GroupCounts(keys), NegKey);
    GroupsKeysDistinct(keys, h);
    forall i, j | 0 <= i < j < |h| ensures h[i].key < h[j].key {
      assert NegKey(h[i]) >= NegKey(h[j]);
    }
  }

  /** Each bucket holds its exact count, and every key that occurs has a bucket. */
  lemma HistogramExact(keys: seq<int>)
    ensures forall x :: x in Histogram(keys) ==> x.key in keys && x.count == Occurrences(keys, x.key) >= 1
    ensures forall k | k in keys :: exists x :: x in Histogram(keys) && x.key == k
  {
    var g := GroupCounts(keys);
    var h := Histogram(keys);
    GroupCountsExact(keys);
    forall x | x in h ensures x.key in keys && x.count == Occurrences(keys, x.key) >= 1 {
      SortDescSameElements(g, NegKey, x);
    }
    forall k | k in keys ensures exists x :: x in h && x.key == k {
      var x :| x in g && x.key == k;
      SortDescSameElements(g, NegKey, x);
    }
  }

  /**
   * The histogram lists each bucket once, in strictly ascending order, with its exact count;
   * every bucket that occurs is listed, and the counts add up to the rows.
   */
  lemma HistogramFacts(keys: seq<int>)
    ensures forall i, j | 0 <= i < j < |Histogram(keys)| :: Histogram(keys)[i].key < Histogram(keys)[j].key
    ensures SumBy(Histogram(keys), GroupCount) == |keys|
    ensures forall x :: x in Histogram(keys) ==> x.key in keys && x.count == Occurrences(keys, x.key) >= 1
    ensures forall k | k in keys :: exists x :: x in Histogram(keys) && x.key == k
  {
    HistogramAscending(keys);
    HistogramExact(keys);
    SumBySort(GroupCounts(keys), NegKey, GroupCount);
    GroupCountsFacts(keys);
  }
}
