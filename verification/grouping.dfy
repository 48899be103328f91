/**
  The Kotlin collection pipeline the CLI summary is built from: `groupBy` on a
  key followed by `map { it.key to it.value.count() }`, the stable
  `sortedByDescending { it.second }`, and `subList(0, min(n, size))`.

  A group list is a sequence of (key, count) pairs. `groupBy` fills a
  LinkedHashMap, so its keys come out in the order of their first occurrence.
*/
module Grouping {

  // ---------------------------------------------------------------------------
  // Reference definitions

  /** The keys of a group list, in order. */
  function KeysOf<K>(g: seq<(K, nat)>): (ks: seq<K>)
    ensures |ks| == |g|
    ensures forall i :: 0 <= i < |g| ==> ks[i] == g[i].0
  {
    seq(|g|, i requires 0 <= i < |g| => g[i].0)
  }

  /** Sum of the counts of a group list. */
  function Total<K>(g: seq<(K, nat)>): nat
  {
    if g == [] then 0 else g[0].1 + Total(g[1..])
  }

  /** Where `x` first occurs in `s`. */
  function FirstIndex<K(==)>(s: seq<K>, x: K): (i: nat)
    requires x in s
    ensures i < |s| && s[i] == x && x !in s[..i]
  {
    if s[0] == x then 0 else 1 + FirstIndex(s[1..], x)
  }

  ghost predicate DistinctKeys<K>(g: seq<(K, nat)>)
  {
    forall i, j :: 0 <= i < j < |g| ==> g[i].0 != g[j].0
  }

  /** Every key of `g` occurs in `keys`. */
  ghost predicate KeysFrom<K>(g: seq<(K, nat)>, keys: seq<K>)
  {
    forall i :: 0 <= i < |g| ==> g[i].0 in keys
  }

  /** Every element of `keys` is a key of `g`. */
  ghost predicate CoversKeys<K>(g: seq<(K, nat)>, keys: seq<K>)
  {
    forall i :: 0 <= i < |keys| ==> keys[i] in KeysOf(g)
  }

  /** Each entry counts how often its key occurs in `keys`. */
  ghost predicate CountsOccurrences<K>(g: seq<(K, nat)>, keys: seq<K>)
  {
    forall i :: 0 <= i < |g| ==> g[i].1 == multiset(keys)[g[i].0]
  }

  /** The entries are in the order in which their keys first occur in `keys`. */
  ghost predicate FirstOccurrenceOrder<K>(g: seq<(K, nat)>, keys: seq<K>)
    requires KeysFrom(g, keys)
  {
    forall i, j :: 0 <= i < j < |g| ==> FirstIndex(keys, g[i].0) < FirstIndex(keys, g[j].0)
  }

  /** `g` is the grouping of `keys`: one entry per distinct key, in order of
      first occurrence, each carrying the number of times its key occurs. */
  ghost predicate IsGrouping<K>(g: seq<(K, nat)>, keys: seq<K>)
  {
    && DistinctKeys(g)
    && KeysFrom(g, keys)
    && CoversKeys(g, keys)
    && CountsOccurrences(g, keys)
    && FirstOccurrenceOrder(g, keys)
  }

  ghost predicate NonIncreasing<K>(g: seq<(K, nat)>)
  {
    forall i, j :: 0 <= i < j < |g| ==> g[i].1 >= g[j].1
  }

  /** The entries of `g` whose count is `c`, in their order in `g`. */
  function WithCount<K>(g: seq<(K, nat)>, c: nat): seq<(K, nat)>
  {
    if g == [] then []
    else (if g[0].1 == c then [g[0]] else []) + WithCount(g[1..], c)
  }

  // ---------------------------------------------------------------------------
  // groupBy { key }.map { key to count }

  /** Adds one occurrence of `k`: bumps its entry, or appends a new entry with
      count 1 when `k` has none yet. */
  function Tally<K(==)>(g: seq<(K, nat)>, k: K): (r: seq<(K, nat)>)
    ensures Total(r) == Total(g) + 1
  {
    if g == [] then [(k, 1)]
    else if g[0].0 == k then
      var r := [(k, g[0].1 + 1)] + g[1..];
      assert r[1..] == g[1..];
      r
    else
      var t := Tally(g[1..], k);
      var r := [g[0]] + t;
      assert r[1..] == t;
      r
  }

  /** The grouping of `keys` by counting them left to right. */
  function GroupCounts<K(==)>(keys: seq<K>): (g: seq<(K, nat)>)
    ensures IsGrouping(g, keys)
    ensures Total(g) == |keys|
    decreases |keys|
  {
    if keys == [] then []
    else
      var init, last := keys[..|keys| - 1], keys[|keys| - 1];
      var g0 := GroupCounts(init);
      assert init + [last] == keys;
      TallyKeepsGrouping(g0, init, last);
      Tally(g0, last)
  }

  lemma {:induction false} TallyExisting<K>(g: seq<(K, nat)>, k: K, j: nat)
    requires j < |g| && g[j].0 == k && k !in KeysOf(g)[..j]
    ensures Tally(g, k) == g[j := (k, g[j].1 + 1)]
  {
    if j > 0 {
      assert g[0].0 == KeysOf(g)[..j][0];
      assert KeysOf(g[1..])[..j - 1] == KeysOf(g)[..j][1..];
      TallyExisting(g[1..], k, j - 1);
    }
  }

  lemma {:induction false} TallyNew<K>(g: seq<(K, nat)>, k: K)
    requires k !in KeysOf(g)
    ensures Tally(g, k) == g + [(k, 1)]
  {
    if g != [] {
      assert g[0].0 == KeysOf(g)[0];
      assert KeysOf(g[1..]) == KeysOf(g)[1..];
      TallyNew(g[1..], k);
    }
  }

  /** Where `x` first occurs, given a position where it occurs and does not
      occur before. */
  lemma FirstIndexAt<K>(s: seq<K>, x: K, i: nat)
    requires i < |s| && s[i] == x && x !in s[..i]
    ensures FirstIndex(s, x) == i
  {
  }

  lemma FirstIndexAppend<K>(s: seq<K>, k: K, x: K)
    requires x in s
    ensures FirstIndex(s + [k], x) == FirstIndex(s, x)
  {
    var i := FirstIndex(s, x);
    assert (s + [k])[..i] == s[..i];
    FirstIndexAt(s + [k], x, i);
  }

  lemma TallyKeepsGrouping<K>(g: seq<(K, nat)>, keys: seq<K>, k: K)
    requires IsGrouping(g, keys)
    ensures IsGrouping(Tally(g, k), keys + [k])
  {
    forall x | x in keys ensures FirstIndex(keys + [k], x) == FirstIndex(keys, x) {
      FirstIndexAppend(keys, k, x);
    }
    if k in KeysOf(g) {
      TallyExistingKeepsGrouping(g, keys, k);
    } else {
      TallyNewKeepsGrouping(g, keys, k);
    }
  }

  lemma TallyExistingKeepsGrouping<K>(g: seq<(K, nat)>, keys: seq<K>, k: K)
    requires IsGrouping(g, keys) && k in KeysOf(g)
    requires forall x :: x in keys ==> FirstIndex(keys + [k], x) == FirstIndex(keys, x)
    ensures IsGrouping(Tally(g, k), keys + [k])
  {
    var j := FirstIndex(KeysOf(g), k);
    TallyExisting(g, k, j);
    var g', keys' := Tally(g, k), keys + [k];
    assert forall i :: 0 <= i < |g'| ==> g'[i].0 == g[i].0;
    assert KeysOf(g') == KeysOf(g);
    assert KeysFrom(g', keys');
    assert CoversKeys(g', keys') by {
      forall i | 0 <= i < |keys'| ensures keys'[i] in KeysOf(g') {
        if i < |keys| { assert keys'[i] == keys[i]; }
      }
    }
    assert CountsOccurrences(g', keys') by {
      assert multiset(keys') == multiset(keys) + multiset{k};
      forall i | 0 <= i < |g'| ensures g'[i].1 == multiset(keys')[g'[i].0] {
        if i != j { assert g'[i] == g[i] && g[i].0 != k; }
      }
    }
    assert FirstOccurrenceOrder(g', keys') by {
      forall i, i' | 0 <= i < i' < |g'|
        ensures FirstIndex(keys', g'[i].0) < FirstIndex(keys', g'[i'].0)
      {
        assert FirstIndex(keys, g[i].0) < FirstIndex(keys, g[i'].0);
      }
    }
  }

  lemma TallyNewKeepsGrouping<K>(g: seq<(K, nat)>, keys: seq<K>, k: K)
    requires IsGrouping(g, keys) && k !in KeysOf(g)
    requires forall x :: x in keys ==> FirstIndex(keys + [k], x) == FirstIndex(keys, x)
    ensures IsGrouping(Tally(g, k), keys + [k])
  {
    TallyNew(g, k);
    assert k !in keys;
    NewKeyDistinct(g, k);
    NewKeyCovers(g, keys, k);
    NewKeyCounts(g, keys, k);
    NewKeyOrder(g, keys, k);
  }

  lemma NewKeyDistinct<K>(g: seq<(K, nat)>, k: K)
    requires DistinctKeys(g) && k !in KeysOf(g)
    ensures DistinctKeys(g + [(k, 1)])
  {
  }

  lemma NewKeyCovers<K>(g: seq<(K, nat)>, keys: seq<K>, k: K)
    requires CoversKeys(g, keys)
    ensures CoversKeys(g + [(k, 1)], keys + [k])
  {
    var g', keys' := g + [(k, 1)], keys + [k];
    assert KeysOf(g') == KeysOf(g) + [k];
    forall i | 0 <= i < |keys'| ensures keys'[i] in KeysOf(g') {
      if i < |keys| { assert keys'[i] == keys[i]; }
    }
  }

  lemma NewKeyCounts<K>(g: seq<(K, nat)>, keys: seq<K>, k: K)
    requires CountsOccurrences(g, keys) && KeysFrom(g, keys) && k !in keys
    ensures CountsOccurrences(g + [(k, 1)], keys + [k])
  {
  }

  lemma NewKeyOrder<K>(g: seq<(K, nat)>, keys: seq<K>, k: K)
    requires KeysFrom(g, keys) && FirstOccurrenceOrder(g, keys) && k !in keys
    requires forall x :: x in keys ==> FirstIndex(keys + [k], x) == FirstIndex(keys, x)
    ensures KeysFrom(g + [(k, 1)], keys + [k])
    ensures FirstOccurrenceOrder(g + [(k, 1)], keys + [k])
  {
  }

  // ---------------------------------------------------------------------------
  // sortedByDescending { count }

  /** Inserts `x` in front of the first entry whose count does not exceed its
      own, so that `x` stays ahead of the equal counts that followed it. */
  function InsertByCount<K>(x: (K, nat), sorted: seq<(K, nat)>): (r: seq<(K, nat)>)
    ensures multiset(r) == multiset(sorted) + multiset{x}
  {
    if sorted == [] || sorted[0].1 <= x.1 then [x] + sorted
    else
      assert sorted == [sorted[0]] + sorted[1..];
      [sorted[0]] + InsertByCount(x, sorted[1..])
  }

  lemma {:induction false} InsertByCountSorted<K>(x: (K, nat), sorted: seq<(K, nat)>)
    requires NonIncreasing(sorted)
    ensures NonIncreasing(InsertByCount(x, sorted))
  {
    if sorted != [] && sorted[0].1 > x.1 {
      var rest := InsertByCount(x, sorted[1..]);
      InsertByCountSorted(x, sorted[1..]);
      forall i | 0 <= i < |rest| ensures rest[i].1 <= sorted[0].1 {
        assert rest[i] in multiset(rest);
        assert rest[i] == x || rest[i] in multiset(sorted[1..]);
      }
    }
  }

  /** Kotlin's `sortedByDescending { it.second }`: a stable sort, by insertion,
      on decreasing count. */
  function SortByCountDescending<K>(g: seq<(K, nat)>): (r: seq<(K, nat)>)
    ensures multiset(r) == multiset(g)
    ensures NonIncreasing(r)
  {
    if g == [] then []
    else
      assert g == [g[0]] + g[1..];
      InsertByCountSorted(g[0], SortByCountDescending(g[1..]));
      InsertByCount(g[0], SortByCountDescending(g[1..]))
  }

  lemma {:induction false} InsertByCountStable<K>(x: (K, nat), t: seq<(K, nat)>, c: nat)
    ensures WithCount(InsertByCount(x, t), c) ==
      (if x.1 == c then [x] else []) + WithCount(t, c)
  {
    if t == [] || t[0].1 <= x.1 {
      assert ([x] + t)[1..] == t;
    } else {
      InsertByCountStable(x, t[1..], c);
      assert ([t[0]] + InsertByCount(x, t[1..]))[1..] == InsertByCount(x, t[1..]);
    }
  }

  /** Stability: among entries of equal count, the sort keeps the input order. */
  lemma {:induction false} SortIsStable<K>(g: seq<(K, nat)>, c: nat)
    ensures WithCount(SortByCountDescending(g), c) == WithCount(g, c)
  {
    if g != [] {
      SortIsStable(g[1..], c);
      InsertByCountStable(g[0], SortByCountDescending(g[1..]), c);
    }
  }

  lemma {:induction false} InsertByCountTotal<K>(x: (K, nat), t: seq<(K, nat)>)
    ensures Total(InsertByCount(x, t)) == x.1 + Total(t)
  {
    if t == [] || t[0].1 <= x.1 {
      assert ([x] + t)[1..] == t;
    } else {
      InsertByCountTotal(x, t[1..]);
      assert ([t[0]] + InsertByCount(x, t[1..]))[1..] == InsertByCount(x, t[1..]);
    }
  }

  /** A prefix of a group list holds at most its total count. */
  lemma TotalOfPrefix<K>(t: seq<(K, nat)>, g: seq<(K, nat)>)
    requires t <= g
    ensures Total(t) <= Total(g)
  {
  }

  /** Sorting keeps the total of the counts. */
  lemma {:induction false} SortKeepsTotal<K>(g: seq<(K, nat)>)
    ensures Total(SortByCountDescending(g)) == Total(g)
  {
    if g != [] {
      SortKeepsTotal(g[1..]);
      InsertByCountTotal(g[0], SortByCountDescending(g[1..]));
    }
  }

  /** A reordering of distinct keys has distinct keys. */
  lemma DistinctKeysOfPermutation<K>(a: seq<(K, nat)>, b: seq<(K, nat)>)
    requires multiset(a) == multiset(b) && DistinctKeys(a)
    ensures DistinctKeys(b)
  {
    forall i, j | 0 <= i < j < |b| ensures b[i].0 != b[j].0 {
      if b[i].0 == b[j].0 {
        assert b[i] in multiset(a) && b[j] in multiset(a);
        var p :| 0 <= p < |a| && a[p] == b[i];
        var q :| 0 <= q < |a| && a[q] == b[j];
        if p == q {
          // b[i] == b[j], so that pair occurs twice in b but once in a
          assert b[i] == b[j];
          OccursTwice(b, i, j);
          OccursOnce(a, p);
          assert false;
        }
      }
    }
  }

  lemma OccursTwice<T>(s: seq<T>, i: nat, j: nat)
    requires i < j < |s| && s[i] == s[j]
    ensures multiset(s)[s[i]] >= 2
  {
    assert s == s[..i] + [s[i]] + s[i + 1..j] + [s[j]] + s[j + 1..];
  }

  lemma OccursOnce<K>(a: seq<(K, nat)>, p: nat)
    requires p < |a| && DistinctKeys(a)
    ensures multiset(a)[a[p]] == 1
  {
    assert a == a[..p] + [a[p]] + a[p + 1..];
    assert a[p] !in a[..p];
    assert a[p] !in a[p + 1..];
  }

  /** Each entry is a key of `keys` with its number of occurrences, at least 1. */
  ghost predicate EntriesCount<K>(r: seq<(K, nat)>, keys: seq<K>)
  {
    forall i :: 0 <= i < |r| ==> r[i].0 in keys && 1 <= r[i].1 == multiset(keys)[r[i].0]
  }

  lemma PermutedGroupingCounts<K>(g: seq<(K, nat)>, r: seq<(K, nat)>, keys: seq<K>)
    requires KeysFrom(g, keys) && CountsOccurrences(g, keys) && multiset(r) == multiset(g)
    ensures EntriesCount(r, keys)
  {
    forall i | 0 <= i < |r| ensures r[i].0 in keys && 1 <= r[i].1 == multiset(keys)[r[i].0] {
      assert r[i] in multiset(g);
      var j :| 0 <= j < |g| && g[j] == r[i];
    }
  }

  lemma PermutedGroupingCovers<K>(g: seq<(K, nat)>, r: seq<(K, nat)>, keys: seq<K>)
    requires CoversKeys(g, keys) && multiset(r) == multiset(g)
    ensures CoversKeys(r, keys)
  {
    forall i | 0 <= i < |keys| ensures keys[i] in KeysOf(r) {
      var j :| 0 <= j < |g| && KeysOf(g)[j] == keys[i];
      assert g[j] in multiset(r);
      var p :| 0 <= p < |r| && r[p] == g[j];
      assert KeysOf(r)[p] == keys[i];
    }
  }

  /** What `groupBy`, the count per group and the descending sort give
      together: distinct keys, each counted at least once and exactly as often
      as it occurs, every key present, counts summing to the number of keys, in
      non-increasing order, and entries of equal count in order of first
      occurrence. */
  lemma GroupedByCountDescending<K>(keys: seq<K>)
    ensures var r := SortByCountDescending(GroupCounts(keys));
      && DistinctKeys(r)
      && EntriesCount(r, keys)
      && CoversKeys(r, keys)
      && Total(r) == |keys|
      && NonIncreasing(r)
      && (forall c: nat :: WithCount(r, c) == WithCount(GroupCounts(keys), c))
  {
    var g := GroupCounts(keys);
    var r := SortByCountDescending(g);
    DistinctKeysOfPermutation(g, r);
    SortKeepsTotal(g);
    PermutedGroupingCounts(g, r, keys);
    PermutedGroupingCovers(g, r, keys);
    forall c: nat ensures WithCount(r, c) == WithCount(g, c) {
      SortIsStable(g, c);
    }
  }

  // ---------------------------------------------------------------------------
  // subList(0, min(n, size))

  /** The first `n` entries, or all of them when there are fewer. On a list
      sorted by decreasing count these are entries with the largest counts. */
  function Top<K>(g: seq<(K, nat)>, n: nat): (t: seq<(K, nat)>)
    ensures t <= g
    ensures |t| == if |g| < n then |g| else n
    ensures NonIncreasing(g) ==>
      forall i, j :: 0 <= i < |t| <= j < |g| ==> t[i].1 >= g[j].1
  {
    g[..if n < |g| then n else |g|]
  }
}
