/**
 * Sequence operations the dashboard relies on: filtering (Array.prototype.filter,
 * list comprehensions with a condition) and the stable sort that both
 * Array.prototype.sort (ES2019 and later) and Python's sorted() guarantee.
 * The sort is generic in an order `le` ("may come before"); a comparator
 * returning a negative number, zero or a positive number corresponds to
 * `le(a, b) == (cmp(a, b) <= 0)`.
 */
module Sequences {

  /** The elements of s that satisfy p, in their original order. */
  function Filter<T>(s: seq<T>, p: T -> bool): (r: seq<T>)
    ensures |r| <= |s|
  {
    if s == [] then []
    else if p(s[0]) then [s[0]] + Filter(s[1..], p)
    else Filter(s[1..], p)
  }

  /** The filter keeps exactly the elements of s that satisfy p. */
  lemma {:induction false} FilterMembers<T>(s: seq<T>, p: T -> bool)
    ensures forall x :: x in Filter(s, p) <==> x in s && p(x)
  {
    if s != [] {
      FilterMembers(s[1..], p);
      assert s == [s[0]] + s[1..];
    }
  }

  /** r is obtained from s by deleting elements (greedy matching decides it). */
  predicate IsSubsequence<T(==)>(r: seq<T>, s: seq<T>)
    decreases |s|
  {
    if r == [] then true
    else if s == [] then false
    else if r[0] == s[0] then IsSubsequence(r[1..], s[1..])
    else IsSubsequence(r, s[1..])
  }

  lemma {:induction false} FilterIsSubsequence<T>(s: seq<T>, p: T -> bool)
    ensures IsSubsequence(Filter(s, p), s)
  {
    if s != [] {
      FilterIsSubsequence(s[1..], p);
      FilterMembers(s[1..], p);
    }
  }

  /** Filters with independent predicates may be applied in either order. */
  lemma {:induction false} FilterCommutes<T>(s: seq<T>, p: T -> bool, q: T -> bool)
    ensures Filter(Filter(s, p), q) == Filter(Filter(s, q), p)
  {
    if s != [] {
      FilterCommutes(s[1..], p, q);
    }
  }

  /** Two filters in a row keep what satisfies both. */
  lemma {:induction false} FilterConjunction<T>(s: seq<T>, p: T -> bool, q: T -> bool)
    ensures Filter(Filter(s, p), q) == Filter(s, x => p(x) && q(x))
  {
    if s != [] {
      FilterConjunction(s[1..], p, q);
    }
  }

  /** Filters by predicates that agree on s keep the same elements. */
  lemma {:induction false} FilterAgree<T>(s: seq<T>, p: T -> bool, q: T -> bool)
    requires forall x :: x in s ==> p(x) == q(x)
    ensures Filter(s, p) == Filter(s, q)
  {
    if s != [] {
      FilterAgree(s[1..], p, q);
    }
  }

  /** A filter that holds for no element keeps nothing. */
  lemma {:induction false} FilterNothing<T>(s: seq<T>, p: T -> bool)
    requires forall x :: x in s ==> !p(x)
    ensures Filter(s, p) == []
  {
    if s != [] {
      FilterNothing(s[1..], p);
    }
  }

  /** Applying the same filter twice is the same as applying it once. */
  lemma {:induction false} FilterIdempotent<T>(s: seq<T>, p: T -> bool)
    ensures Filter(Filter(s, p), p) == Filter(s, p)
  {
    if s != [] {
      FilterIdempotent(s[1..], p);
    }
  }

  /** A filter that holds for every element keeps the whole sequence. */
  lemma {:induction false} FilterAll<T>(s: seq<T>, p: T -> bool)
    requires forall x :: x in s ==> p(x)
    ensures Filter(s, p) == s
  {
    if s != [] {
      FilterAll(s[1..], p);
    }
  }

  /** Filter distributes over concatenation. */
  lemma {:induction false} FilterAppend<T>(s: seq<T>, t: seq<T>, p: T -> bool)
    ensures Filter(s + t, p) == Filter(s, p) + Filter(t, p)
  {
    if s == [] {
      assert s + t == t;
    } else {
      assert (s + t)[1..] == s[1..] + t;
      FilterAppend(s[1..], t, p);
    }
  }

  /** le is total and transitive: the order a sort comparator must induce. */
  ghost predicate TotalPreorder<T(!new)>(le: (T, T) -> bool) {
    && (forall a, b :: le(a, b) || le(b, a))
    && (forall a, b, c :: le(a, b) && le(b, c) ==> le(a, c))
  }

  ghost predicate SortedBy<T>(s: seq<T>, le: (T, T) -> bool) {
    forall i, j :: 0 <= i < j < |s| ==> le(s[i], s[j])
  }

  /** Places x in front of the first element it may precede. */
  function Insert<T>(x: T, s: seq<T>, le: (T, T) -> bool): (r: seq<T>)
    ensures |r| == |s| + 1
    ensures multiset(r) == multiset(s) + multiset{x}
  {
    if s == [] then [x]
    else if le(x, s[0]) then [x] + s
    else
      assert s == [s[0]] + s[1..];
      [s[0]] + Insert(x, s[1..], le)
  }

  /**
   * Stable insertion sort. Each element is placed before every later element it
   * may precede, so elements that compare equal keep their input order.
   */
  function Sort<T>(s: seq<T>, le: (T, T) -> bool): (r: seq<T>)
    ensures |r| == |s|
    ensures multiset(r) == multiset(s)
  {
    if s == [] then []
    else
      assert s == [s[0]] + s[1..];
      Insert(s[0], Sort(s[1..], le), le)
  }

  /** Everything in an insertion into s is x or an element of s. */
  lemma InsertMembers<T>(x: T, s: seq<T>, le: (T, T) -> bool, y: T)
    requires y in Insert(x, s, le)
    ensures y == x || y in s
  {
    assert y in multiset(Insert(x, s, le));
  }

  lemma {:induction false} InsertSorted<T(!new)>(x: T, s: seq<T>, le: (T, T) -> bool)
    requires TotalPreorder(le)
    requires SortedBy(s, le)
    ensures SortedBy(Insert(x, s, le), le)
  {
    if s != [] && !le(x, s[0]) {
      var t := Insert(x, s[1..], le);
      assert SortedBy(s[1..], le);
      InsertSorted(x, s[1..], le);
      assert Insert(x, s, le) == [s[0]] + t;
      forall y | y in t ensures le(s[0], y) {
        InsertMembers(x, s[1..], le, y);
        if y != x {
          var k :| 0 <= k < |s[1..]| && s[1..][k] == y;
          assert s[k + 1] == y;
        }
      }
    }
  }

  /** The sort orders its output by le. */
  lemma {:induction false} SortIsSorted<T(!new)>(s: seq<T>, le: (T, T) -> bool)
    requires TotalPreorder(le)
    ensures SortedBy(Sort(s, le), le)
  {
    if s != [] {
      SortIsSorted(s[1..], le);
      InsertSorted(s[0], Sort(s[1..], le), le);
    }
  }

  /** The elements of s that compare equal to x, in their order in s. */
  function Ties<T>(s: seq<T>, x: T, le: (T, T) -> bool): seq<T> {
    Filter(s, y => le(x, y) && le(y, x))
  }

  /** a as a one-element tie of x, or nothing. */
  function Tie<T>(a: T, x: T, le: (T, T) -> bool): (r: seq<T>)
    ensures r == [] || r == [a]
  {
    if le(x, a) && le(a, x) then [a] else []
  }

  /** The ties of a sequence with a first element: that element if it ties, then the rest's. */
  lemma TiesCons<T>(a: T, s: seq<T>, x: T, le: (T, T) -> bool)
    ensures Ties([a] + s, x, le) == Tie(a, x, le) + Ties(s, x, le)
  {
    assert ([a] + s)[1..] == s;
  }

  /** Moving y behind a head that does not tie alongside it leaves the ties unchanged. */
  lemma TiesBehind<T>(y: T, a: T, rest: seq<T>, s: seq<T>, x: T, le: (T, T) -> bool)
    requires Tie(y, x, le) == [] || Tie(a, x, le) == []
    requires Ties(rest, x, le) == Tie(y, x, le) + Ties(s, x, le)
    ensures Ties([a] + rest, x, le) == Tie(y, x, le) + Ties([a] + s, x, le)
  {
    TiesCons(a, rest, x, le);
    TiesCons(a, s, x, le);
  }

  lemma {:induction false} TiesInsert<T(!new)>(y: T, t: seq<T>, x: T, le: (T, T) -> bool)
    requires TotalPreorder(le)
    ensures Ties(Insert(y, t, le), x, le) == Tie(y, x, le) + Ties(t, x, le)
  {
    if t == [] {
      TiesCons(y, [], x, le);
    } else if le(y, t[0]) {
      TiesCons(y, t, x, le);
    } else {
      assert Insert(y, t, le) == [t[0]] + Insert(y, t[1..], le);
      assert t == [t[0]] + t[1..];
      TiesInsert(y, t[1..], x, le);
      TiesBehind(y, t[0], Insert(y, t[1..], le), t[1..], x, le);
    }
  }

  /** Stability: among elements that compare equal, the sort keeps the input order. */
  lemma {:induction false} SortIsStable<T(!new)>(s: seq<T>, x: T, le: (T, T) -> bool)
    requires TotalPreorder(le)
    ensures Ties(Sort(s, le), x, le) == Ties(s, x, le)
  {
    if s != [] {
      SortIsStable(s[1..], x, le);
      TiesInsert(s[0], Sort(s[1..], le), x, le);
    }
  }

  /** Sorting a sorted sequence changes nothing. */
  lemma {:induction false} SortOfSorted<T(!new)>(s: seq<T>, le: (T, T) -> bool)
    requires SortedBy(s, le)
    ensures Sort(s, le) == s
  {
    if s != [] {
      assert SortedBy(s[1..], le);
      SortOfSorted(s[1..], le);
    }
  }

  /** A non-empty sequence is its prefix followed by its last element. */
  lemma SplitLast<T>(s: seq<T>)
    requires s != []
    ensures s == s[..|s| - 1] + [s[|s| - 1]]
  {
  }

  /** The prefix of length i + 1 extends the prefix of length i by s[i]. */
  lemma PrefixSnoc<T>(s: seq<T>, i: int)
    requires 0 <= i < |s|
    ensures s[..i + 1] == s[..i] + [s[i]]
  {
  }

  /** The slices of a one-element sequence, and the empty sequence as a unit of +. */
  lemma Singleton<T>(x: T)
    ensures [x][..0] == [] && [x][1..] == [] && [] + [x] == [x] && [x] + [] == [x]
  {
  }
}
