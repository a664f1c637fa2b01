/**
 * The list operations the front end builds everything from: `filter`,
 * `findIndex`, the include-or-exclude toggle, position-based removal and a
 * stable comparison sort.
 */
module Seqs {

  /** `s.filter(p)`: the elements satisfying `p`, in their original order. */
  function Filter<T>(p: T -> bool, s: seq<T>): (r: seq<T>)
    ensures |r| <= |s|
    ensures forall i :: 0 <= i < |r| ==> p(r[i]) && r[i] in s
    ensures forall x :: x in s && p(x) ==> x in r
    ensures forall x :: x in s ==> multiset(r)[x] == if p(x) then multiset(s)[x] else 0
  {
    if s == [] then []
    else
      var rest := Filter(p, s[1..]);
      assert s == [s[0]] + s[1..];
      assert multiset(s) == multiset{s[0]} + multiset(s[1..]);
      if p(s[0]) then [s[0]] + rest else rest
  }

  /** `r` is `s` with some elements left out, the rest in their original order. */
  predicate IsSubsequence<T(==)>(r: seq<T>, s: seq<T>)
    decreases |s|
  {
    r == [] || (s != [] && ((r[0] == s[0] && IsSubsequence(r[1..], s[1..])) || IsSubsequence(r, s[1..])))
  }

  /** Filtering keeps order: its result is a subsequence of its input. */
  lemma {:induction false} FilterIsSubsequence<T>(p: T -> bool, s: seq<T>)
    ensures IsSubsequence(Filter(p, s), s)
  {
    if s != [] {
      FilterIsSubsequence(p, s[1..]);
      var r := Filter(p, s);
      if p(s[0]) {
        assert r[0] == s[0] && r[1..] == Filter(p, s[1..]);
      } else {
        assert r == Filter(p, s[1..]);
      }
    }
  }

  /** Filtering distributes over concatenation. */
  lemma {:induction false} FilterAppend<T>(p: T -> bool, a: seq<T>, b: seq<T>)
    ensures Filter(p, a + b) == Filter(p, a) + Filter(p, b)
  {
    if a == [] {
      assert a + b == b;
    } else {
      assert (a + b)[1..] == a[1..] + b;
      FilterAppend(p, a[1..], b);
    }
  }

  /** The filter's length is the first element's share plus that of the rest. */
  lemma FilterCountsHead<T>(p: T -> bool, s: seq<T>)
    requires s != []
    ensures |Filter(p, s)| == (if p(s[0]) then 1 else 0) + |Filter(p, s[1..])|
  {
  }

  /** Replacing one element by another that passes the filter exactly when it did keeps the filter's length. */
  lemma {:induction false} FilterLengthUpdate<T>(p: T -> bool, s: seq<T>, i: int, x: T)
    requires 0 <= i < |s|
    requires p(x) == p(s[i])
    ensures |Filter(p, s[i := x])| == |Filter(p, s)|
  {
    var t := s[i := x];
    FilterCountsHead(p, t);
    FilterCountsHead(p, s);
    if i == 0 {
      assert t[1..] == s[1..];
    } else {
      assert t[0] == s[0];
      assert t[1..] == s[1..][i - 1 := x];
      FilterLengthUpdate(p, s[1..], i - 1, x);
    }
  }

  /** A filter no element passes leaves nothing. */
  lemma {:induction false} FilterKeepsNone<T>(p: T -> bool, s: seq<T>)
    requires forall i :: 0 <= i < |s| ==> !p(s[i])
    ensures Filter(p, s) == []
  {
    if s != [] {
      FilterKeepsNone(p, s[1..]);
    }
  }

  /** A filter every element passes changes nothing. */
  lemma {:induction false} FilterKeepsAll<T>(p: T -> bool, s: seq<T>)
    requires forall i :: 0 <= i < |s| ==> p(s[i])
    ensures Filter(p, s) == s
  {
    if s != [] {
      FilterKeepsAll(p, s[1..]);
    }
  }

  /** A filter some element fails is shorter than its input. */
  lemma {:induction false} FilterShorter<T>(p: T -> bool, s: seq<T>, i: int)
    requires 0 <= i < |s| && !p(s[i])
    ensures |Filter(p, s)| < |s|
    decreases i
  {
    FilterCountsHead(p, s);
    if i > 0 {
      FilterShorter(p, s[1..], i - 1);
    }
  }

  /** A stronger condition keeps no more elements than a weaker one. */
  lemma {:induction false} FilterStrongerKeepsFewer<T>(q: T -> bool, p: T -> bool, s: seq<T>)
    requires forall x :: q(x) ==> p(x)
    ensures |Filter(q, s)| <= |Filter(p, s)|
  {
    if s != [] {
      FilterCountsHead(q, s);
      FilterCountsHead(p, s);
      FilterStrongerKeepsFewer(q, p, s[1..]);
    }
  }

  /** Filtering twice by the same test is filtering once. */
  lemma FilterIdempotent<T>(p: T -> bool, s: seq<T>)
    ensures Filter(p, Filter(p, s)) == Filter(p, s)
  {
    FilterKeepsAll(p, Filter(p, s));
  }

  /** `s.findIndex(p)`: the first position satisfying `p`, or -1 when there is none. */
  function FindIndex<T>(p: T -> bool, s: seq<T>): (i: int)
    ensures -1 <= i < |s|
    ensures i == -1 <==> forall j :: 0 <= j < |s| ==> !p(s[j])
    ensures 0 <= i ==> p(s[i]) && forall j :: 0 <= j < i ==> !p(s[j])
  {
    if s == [] then -1
    else if p(s[0]) then 0
    else
      var k := FindIndex(p, s[1..]);
      if k == -1 then -1 else k + 1
  }

  /** The first position satisfying `p` is the one `FindIndex` reports. */
  lemma FindIndexAt<T>(p: T -> bool, s: seq<T>, k: int)
    requires 0 <= k < |s| && p(s[k])
    requires forall j :: 0 <= j < k ==> !p(s[j])
    ensures FindIndex(p, s) == k
  {
  }

  /**
   * The checkbox toggle `xs.includes(x) ? xs.filter(y => y !== x) : [...xs, x]`:
   * removes every occurrence of an element already present, otherwise appends it.
   */
  function Toggle<T(==)>(xs: seq<T>, x: T): (r: seq<T>)
    ensures x in xs ==> x !in r && forall y :: y in xs && y != x ==> y in r
    ensures x in xs ==> forall y :: y in r ==> y in xs
    ensures x !in xs ==> r == xs + [x]
  {
    if x in xs then Filter(y => y != x, xs) else xs + [x]
  }

  /** Removing an element keeps the others in their original order. */
  lemma ToggleOffKeepsOrder<T>(xs: seq<T>, x: T)
    requires x in xs
    ensures IsSubsequence(Toggle(xs, x), xs)
    ensures |Toggle(xs, x)| == |xs| - multiset(xs)[x]
  {
    var p := y => y != x;
    FilterIsSubsequence(p, xs);
    assert multiset(Filter(p, xs)) == multiset(xs)[x := 0];
  }

  /** Toggling an absent element twice gives back the original list. */
  lemma ToggleTwice<T>(xs: seq<T>, x: T)
    requires x !in xs
    ensures Toggle(Toggle(xs, x), x) == xs
  {
    var p := y => y != x;
    FilterAppend(p, xs, [x]);
    FilterKeepsAll(p, xs);
  }

  /** `s.filter((_, i) => i !== index)`: drops the element at `index`, if there is one. */
  function DropIndex<T>(s: seq<T>, index: int): (r: seq<T>)
    ensures 0 <= index < |s| ==> r == s[..index] + s[index + 1..]
    ensures !(0 <= index < |s|) ==> r == s
    decreases |s|
  {
    if s == [] then []
    else
      var last := |s| - 1;
      assert s == s[..last] + [s[last]];
      DropIndex(s[..last], index) + (if last == index then [] else [s[last]])
  }

  /** `le` orders its type totally, ties allowed (what a consistent sort comparator gives). */
  ghost predicate TotalPreorder<T(!new)>(le: (T, T) -> bool)
  {
    && (forall a, b :: le(a, b) || le(b, a))
    && (forall a, b, c :: le(a, b) && le(b, c) ==> le(a, c))
  }

  predicate SortedBy<T>(le: (T, T) -> bool, s: seq<T>)
  {
    forall i, j :: 0 <= i < j < |s| ==> le(s[i], s[j])
  }

  /** Puts `x` in front of the first element it does not sort after. */
  function InsertSorted<T>(le: (T, T) -> bool, x: T, s: seq<T>): (r: seq<T>)
    ensures multiset(r) == multiset(s) + multiset{x}
    ensures |r| == |s| + 1
  {
    if s == [] then [x]
    else if le(x, s[0]) then [x] + s
    else
      assert s == [s[0]] + s[1..];
      [s[0]] + InsertSorted(le, x, s[1..])
  }

  /**
   * `s.sort(cmp)` as a stable insertion sort: earlier elements are inserted in
   * front of the later ones they tie with.
   */
  function SortBy<T>(le: (T, T) -> bool, s: seq<T>): (r: seq<T>)
    ensures multiset(r) == multiset(s)
    ensures |r| == |s|
  {
    if s == [] then []
    else
      assert s == [s[0]] + s[1..];
      InsertSorted(le, s[0], SortBy(le, s[1..]))
  }

  lemma {:induction false} InsertSortedKeepsOrder<T(!new)>(le: (T, T) -> bool, x: T, s: seq<T>)
    requires TotalPreorder(le)
    requires SortedBy(le, s)
    ensures SortedBy(le, InsertSorted(le, x, s))
  {
    if s != [] && !le(x, s[0]) {
      InsertSortedKeepsOrder(le, x, s[1..]);
      var t := InsertSorted(le, x, s[1..]);
      forall j | 0 < j < |t| + 1
        ensures le(s[0], ([s[0]] + t)[j])
      {
        var y := t[j - 1];
        assert y in multiset(t);
        assert y == x || y in s[1..];
      }
    }
  }

  /** The sort's result is ordered by `le` (and, by its contract, a permutation of its input). */
  lemma {:induction false} SortBySorted<T(!new)>(le: (T, T) -> bool, s: seq<T>)
    requires TotalPreorder(le)
    ensures SortedBy(le, SortBy(le, s))
  {
    if s != [] {
      SortBySorted(le, s[1..]);
      InsertSortedKeepsOrder(le, s[0], SortBy(le, s[1..]));
    }
  }
}
