/**
 * Counting by key, as the dashboard does with a JavaScript `Map` in
 * buildTimelineFromEvidences and a Python `Counter` in _build_timeline:
 * one pass that creates a bucket on first sight of a key and increments it,
 * followed by a sort of the buckets. Keys are kept in first-seen order,
 * which is the iteration order of both containers.
 */
module Tally {
  import opened Sequences

  predicate Distinct<K(==)>(s: seq<K>) {
    forall i, j :: 0 <= i < j < |s| ==> s[i] != s[j]
  }

  /** Prepending keeps a sequence without repetitions exactly when the new head is not in it. */
  lemma DistinctCons<K>(x: K, s: seq<K>)
    ensures Distinct([x] + s) <==> x !in s && Distinct(s)
  {
    var t := [x] + s;
    if x !in s && Distinct(s) {
      forall i, j | 0 <= i < j < |t| ensures t[i] != t[j] {
        if i == 0 {
          assert t[j] == s[j - 1];
        } else {
          assert t[i] == s[i - 1] && t[j] == s[j - 1];
        }
      }
    }
    if Distinct(t) {
      forall i, j | 0 <= i < j < |s| ensures s[i] != s[j] {
        assert s[i] == t[i + 1] && s[j] == t[j + 1];
      }
      forall k | 0 <= k < |s| ensures s[k] != x {
        assert t[k + 1] == s[k] && t[0] == x;
      }
    }
  }

  /** Appending keeps a sequence without repetitions exactly when the new last element is not in it. */
  lemma DistinctSnoc<K>(s: seq<K>, x: K)
    ensures Distinct(s + [x]) <==> x !in s && Distinct(s)
  {
    var t := s + [x];
    if x !in s && Distinct(s) {
      forall i, j | 0 <= i < j < |t| ensures t[i] != t[j] {
        if j == |s| {
          assert t[i] == s[i];
        } else {
          assert t[i] == s[i] && t[j] == s[j];
        }
      }
    }
    if Distinct(t) {
      forall i, j | 0 <= i < j < |s| ensures s[i] != s[j] {
        assert s[i] == t[i] && s[j] == t[j];
      }
      forall k | 0 <= k < |s| ensures s[k] != x {
        assert t[k] == s[k] && t[|s|] == x;
      }
    }
  }

  /** The distinct elements of s in the order they first occur. */
  function FirstSeen<K(==)>(s: seq<K>): (r: seq<K>)
  {
    if s == [] then []
    else
      var r := FirstSeen(s[..|s| - 1]);
      if s[|s| - 1] in r then r else r + [s[|s| - 1]]
  }

  /** FirstSeen lists every element of s exactly once. */
  lemma {:induction false} FirstSeenFacts<K>(s: seq<K>)
    ensures Distinct(FirstSeen(s))
    ensures forall x :: x in FirstSeen(s) <==> x in s
  {
    if s != [] {
      var p := s[..|s| - 1];
      FirstSeenFacts(p);
      assert s == p + [s[|s| - 1]];
      assert forall x :: x in s <==> x in p || x == s[|s| - 1];
    }
  }

  /** Sum of the multiplicities in m of the keys listed. */
  function SumCounts<K>(keys: seq<K>, m: multiset<K>): nat {
    if keys == [] then 0 else m[keys[0]] + SumCounts(keys[1..], m)
  }

  lemma {:induction false} SumCountsAdd<K>(keys: seq<K>, m: multiset<K>, x: K)
    requires Distinct(keys)
    ensures SumCounts(keys, m + multiset{x}) == SumCounts(keys, m) + (if x in keys then 1 else 0)
  {
    if keys != [] {
      SumCountsAdd(keys[1..], m, x);
      assert x in keys <==> x == keys[0] || x in keys[1..];
    }
  }

  lemma {:induction false} SumCountsEmpty<K>(keys: seq<K>)
    ensures SumCounts(keys, multiset{}) == 0
  {
    if keys != [] { SumCountsEmpty(keys[1..]); }
  }

  /** Listing every key of m once sums its multiplicities to the size of m. */
  lemma {:induction false} SumCountsCover<K>(keys: seq<K>, m: multiset<K>)
    requires Distinct(keys)
    requires forall x :: x in m ==> x in keys
    ensures SumCounts(keys, m) == |m|
    decreases |m|
  {
    if m == multiset{} {
      SumCountsEmpty(keys);
    } else {
      var x :| x in m;
      var rest := m - multiset{x};
      assert m == rest + multiset{x};
      SumCountsCover(keys, rest);
      SumCountsAdd(keys, rest, x);
    }
  }

  /** A value occurs at most once in a sequence without repetitions. */
  lemma {:induction false} DistinctCountAtMostOne<K>(s: seq<K>, x: K)
    requires Distinct(s)
    ensures multiset(s)[x] <= 1
  {
    if s != [] {
      assert s == [s[0]] + s[1..];
      assert Distinct(s[1..]);
      DistinctCountAtMostOne(s[1..], x);
      if s[0] == x {
        assert x !in s[1..];
      }
    }
  }

  /** A value occurring at two positions has multiplicity at least two. */
  lemma TwiceCounted<K>(s: seq<K>, i: int, j: int)
    requires 0 <= i < j < |s| && s[i] == s[j]
    ensures multiset(s)[s[i]] >= 2
  {
    assert s == s[..j] + s[j..];
    assert s[i] in s[..j];
    assert s[j..][0] == s[j];
    assert multiset(s) == multiset(s[..j]) + multiset(s[j..]);
  }

  lemma DistinctPermutation<K>(a: seq<K>, b: seq<K>)
    requires Distinct(a) && multiset(a) == multiset(b)
    ensures Distinct(b)
  {
    forall i, j | 0 <= i < j < |b| ensures b[i] != b[j] {
      if b[i] == b[j] {
        TwiceCounted(b, i, j);
        DistinctCountAtMostOne(a, b[i]);
      }
    }
  }

  /** One histogram bucket: a key and how many times it occurred. */
  datatype Bin<K> = Bin(key: K, count: nat)

  function BinOrder<K>(le: (K, K) -> bool): (K2: (Bin<K>, Bin<K>) -> bool) {
    (a: Bin<K>, b: Bin<K>) => le(a.key, b.key)
  }

  lemma BinOrderTotal<K(!new)>(le: (K, K) -> bool)
    requires TotalPreorder(le)
    ensures TotalPreorder(BinOrder(le))
  {
    var o := BinOrder(le);
    forall a: Bin<K>, b: Bin<K> ensures o(a, b) || o(b, a) {
      assert le(a.key, b.key) || le(b.key, a.key);
    }
    forall a: Bin<K>, b: Bin<K>, c: Bin<K> | o(a, b) && o(b, c) ensures o(a, c) {
      assert le(a.key, b.key) && le(b.key, c.key);
    }
  }

  function BinKeys<K>(bins: seq<Bin<K>>): (r: seq<K>)
    ensures |r| == |bins| && forall i :: 0 <= i < |bins| ==> r[i] == bins[i].key
  {
    seq(|bins|, i requires 0 <= i < |bins| => bins[i].key)
  }

  function SumBins<K>(bins: seq<Bin<K>>): nat {
    if bins == [] then 0 else bins[0].count + SumBins(bins[1..])
  }

  lemma {:induction false} SumBinsCounts<K>(bins: seq<Bin<K>>, m: multiset<K>)
    requires forall i :: 0 <= i < |bins| ==> bins[i].count == m[bins[i].key]
    ensures SumBins(bins) == SumCounts(BinKeys(bins), m)
  {
    if bins != [] {
      assert BinKeys(bins)[1..] == BinKeys(bins[1..]);
      SumBinsCounts(bins[1..], m);
    }
  }

  /** The buckets listed in `order`, with the counts held in `count`. */
  function Entries<K>(order: seq<K>, count: map<K, nat>): (r: seq<Bin<K>>)
    requires forall k :: k in order ==> k in count
    ensures |r| == |order|
    ensures forall j :: 0 <= j < |order| ==> r[j] == Bin(order[j], count[order[j]])
  {
    seq(|order|, j requires 0 <= j < |order| => Bin(order[j], count[order[j]]))
  }

  /** The unsorted buckets: distinct, one per key, each holding its multiplicity. */
  lemma EntriesFacts<K(!new)>(keys: seq<K>, order: seq<K>, count: map<K, nat>)
    requires order == FirstSeen(keys)
    requires forall k :: k in count <==> k in order
    requires forall k :: k in count ==> count[k] == multiset(keys)[k]
    ensures Distinct(Entries(order, count))
    ensures forall b :: b in Entries(order, count) ==> b.key in keys && b.count == multiset(keys)[b.key] > 0
    ensures forall k :: k in keys ==> Bin(k, multiset(keys)[k]) in Entries(order, count)
  {
    FirstSeenFacts(keys);
    var entries := Entries(order, count);
    forall k | k in keys ensures Bin(k, multiset(keys)[k]) in entries {
      var j :| 0 <= j < |order| && order[j] == k;
      assert entries[j] == Bin(k, multiset(keys)[k]);
    }
  }

  /** A reordering of the buckets keeps what they say about the keys. */
  lemma PermutedEntries<K(!new)>(keys: seq<K>, entries: seq<Bin<K>>, bins: seq<Bin<K>>)
    requires multiset(bins) == multiset(entries)
    requires Distinct(entries)
    requires forall b :: b in entries ==> b.key in keys && b.count == multiset(keys)[b.key] > 0
    requires forall k :: k in keys ==> Bin(k, multiset(keys)[k]) in entries
    ensures forall i :: 0 <= i < |bins| ==> bins[i].count == multiset(keys)[bins[i].key] > 0
    ensures forall k :: k in keys <==> k in BinKeys(bins)
    ensures Distinct(BinKeys(bins))
    ensures SumBins(bins) == |keys|
  {
    PermutedCounts(keys, entries, bins);
    DistinctPermutation(entries, bins);
    BinKeysDistinct(bins, multiset(keys));
    PermutedKeys(keys, entries, bins);
    SumBinsCounts(bins, multiset(keys));
    SumCountsCover(BinKeys(bins), multiset(keys));
  }

  lemma PermutedCounts<K>(keys: seq<K>, entries: seq<Bin<K>>, bins: seq<Bin<K>>)
    requires multiset(bins) == multiset(entries)
    requires forall b :: b in entries ==> b.key in keys && b.count == multiset(keys)[b.key] > 0
    ensures forall i :: 0 <= i < |bins| ==> bins[i].key in keys && bins[i].count == multiset(keys)[bins[i].key] > 0
  {
    forall i | 0 <= i < |bins| ensures bins[i] in entries {
      assert bins[i] in multiset(bins);
    }
  }

  lemma PermutedKeys<K>(keys: seq<K>, entries: seq<Bin<K>>, bins: seq<Bin<K>>)
    requires multiset(bins) == multiset(entries)
    requires forall i :: 0 <= i < |bins| ==> bins[i].key in keys
    requires forall k :: k in keys ==> Bin(k, multiset(keys)[k]) in entries
    ensures forall k :: k in keys <==> k in BinKeys(bins)
  {
    forall k | k in keys ensures k in BinKeys(bins) {
      var b := Bin(k, multiset(keys)[k]);
      assert b in multiset(bins);
      var i :| 0 <= i < |bins| && bins[i] == b;
      assert BinKeys(bins)[i] == k;
    }
  }

  /** What sorting the finished buckets establishes. */
  lemma SortedEntries<K(!new)>(keys: seq<K>, order: seq<K>, count: map<K, nat>, le: (K, K) -> bool)
    requires TotalPreorder(le)
    requires order == FirstSeen(keys)
    requires forall k :: k in count <==> k in order
    requires forall k :: k in count ==> count[k] == multiset(keys)[k]
    ensures var bins := Sort(Entries(order, count), BinOrder(le));
      && (forall i :: 0 <= i < |bins| ==> bins[i].count == multiset(keys)[bins[i].key] > 0)
      && (forall k :: k in keys <==> k in BinKeys(bins))
      && Distinct(BinKeys(bins))
      && SortedBy(bins, BinOrder(le))
      && SumBins(bins) == |keys|
  {
    var entries := Entries(order, count);
    EntriesFacts(keys, order, count);
    BinOrderTotal(le);
    SortIsSorted(entries, BinOrder(le));
    PermutedEntries(keys, entries, Sort(entries, BinOrder(le)));
  }

  /** Distinct buckets whose counts are determined by their keys have distinct keys. */
  lemma BinKeysDistinct<K>(bins: seq<Bin<K>>, m: multiset<K>)
    requires Distinct(bins)
    requires forall i :: 0 <= i < |bins| ==> bins[i].count == m[bins[i].key]
    ensures Distinct(BinKeys(bins))
  {
  }

  /** The bucket map after seeing `prefix`. */
  ghost predicate Counted<K(!new)>(prefix: seq<K>, order: seq<K>, count: map<K, nat>) {
    && order == FirstSeen(prefix)
    && (forall k :: k in count <==> k in order)
    && (forall k :: k in count ==> count[k] == multiset(prefix)[k])
  }

  lemma FirstSeenSnoc<K>(prefix: seq<K>, k: K)
    ensures FirstSeen(prefix + [k]) == if k in FirstSeen(prefix) then FirstSeen(prefix) else FirstSeen(prefix) + [k]
  {
    var s := prefix + [k];
    assert s[..|s| - 1] == prefix;
  }

  /** A loop step that meets a key again bumps its bucket. */
  lemma CountStepSeen<K(!new)>(prefix: seq<K>, k: K, order: seq<K>, count: map<K, nat>)
    requires Counted(prefix, order, count) && k in count
    ensures Counted(prefix + [k], order, count[k := count[k] + 1])
  {
    FirstSeenSnoc(prefix, k);
    var c := count[k := count[k] + 1];
    var m := multiset(prefix + [k]);
    assert m == multiset(prefix) + multiset{k};
    forall x | x in c ensures c[x] == m[x] {
      if x != k { assert c[x] == count[x]; }
    }
  }

  /** A loop step that meets a key for the first time creates its bucket with count one. */
  lemma CountStepNew<K(!new)>(prefix: seq<K>, k: K, order: seq<K>, count: map<K, nat>)
    requires Counted(prefix, order, count) && k !in count
    ensures Counted(prefix + [k], order + [k], count[k := 1])
  {
    FirstSeenSnoc(prefix, k);
    FirstSeenFacts(prefix);
    assert k !in order;
    assert k !in multiset(prefix);
    NewBucketCounts(prefix, k, count);
  }

  lemma NewBucketCounts<K(!new)>(prefix: seq<K>, k: K, count: map<K, nat>)
    requires k !in multiset(prefix) && k !in count
    requires forall x :: x in count ==> count[x] == multiset(prefix)[x]
    ensures forall x :: x in count[k := 1] ==> count[k := 1][x] == multiset(prefix + [k])[x]
  {
    var c := count[k := 1];
    var m := multiset(prefix + [k]);
    assert m == multiset(prefix) + multiset{k};
    forall x | x in c ensures c[x] == m[x] {
      if x != k { assert c[x] == count[x]; }
    }
  }

  /**
   * Counts the keys into buckets and returns the buckets sorted by `le`:
   * one bucket per distinct key, holding the number of occurrences of that
   * key, so that the counts add up to the number of keys.
   */
  method Histogram<K(==,!new)>(keys: seq<K>, le: (K, K) -> bool) returns (bins: seq<Bin<K>>)
    requires TotalPreorder(le)
    ensures forall i :: 0 <= i < |bins| ==> bins[i].count == multiset(keys)[bins[i].key] > 0
    ensures forall k :: k in keys <==> k in BinKeys(bins)
    ensures Distinct(BinKeys(bins))
    ensures SortedBy(bins, BinOrder(le))
    ensures SumBins(bins) == |keys|
  {
    var count: map<K, nat> := map[];
    var order: seq<K> := [];
    var i := 0;
    while i < |keys|
      invariant 0 <= i <= |keys|
      invariant Counted(keys[..i], order, count)
    {
      var k := keys[i];
      PrefixSnoc(keys, i);
      if k in count {
        CountStepSeen(keys[..i], k, order, count);
        count := count[k := count[k] + 1];
      } else {
        CountStepNew(keys[..i], k, order, count);
        count := count[k := 1];
        order := order + [k];
      }
      i := i + 1;
    }
    assert keys[..i] == keys;
    SortedEntries(keys, order, count, le);
    bins := Sort(Entries(order, count), BinOrder(le));
  }
}
