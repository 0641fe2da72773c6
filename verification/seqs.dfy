/** Generic sequence operations the sources use through `Array.prototype`
    methods: `filter`, `filter(...).length`, `reduce` over a sum, a stable
    descending `sort` on a numeric key, and `slice(0, k)`. */
module Seqs {

  /** `xs.filter(p)`. */
  function Filter<T>(s: seq<T>, p: T -> bool): (r: seq<T>)
    ensures |r| <= |s|
    ensures forall x :: x in r ==> x in s && p(x)
    ensures forall x :: x in s && p(x) ==> x in r
  {
    if |s| == 0 then []
    else if p(s[0]) then [s[0]] + Filter(s[1..], p)
    else Filter(s[1..], p)
  }

  /** `a` is obtained from `b` by deleting elements, keeping their order. */
  predicate IsSubsequence<T(==)>(a: seq<T>, b: seq<T>)
    decreases |b|
  {
    if |a| == 0 then true
    else if |b| == 0 then false
    else if a[0] == b[0] then IsSubsequence(a[1..], b[1..])
    else IsSubsequence(a, b[1..])
  }

  lemma {:induction false} SubsequenceOfTail<T>(a: seq<T>, b: seq<T>)
    requires |b| > 0 && IsSubsequence(a, b[1..])
    ensures IsSubsequence(a, b)
    decreases |b|, 0
  {
    if |a| > 0 && a[0] == b[0] {
      SubsequenceDropHead(a, b[1..]);
    }
  }

  lemma {:induction false} SubsequenceDropHead<T>(a: seq<T>, c: seq<T>)
    requires |a| > 0 && IsSubsequence(a, c)
    ensures IsSubsequence(a[1..], c)
    decreases |c|, 1
  {
    if a[0] == c[0] {
      SubsequenceOfTail(a[1..], c);
    } else {
      SubsequenceDropHead(a, c[1..]);
      SubsequenceOfTail(a[1..], c);
    }
  }

  /** Filtering keeps an order-preserving subsequence. */
  lemma {:induction false} FilterIsSubsequence<T>(s: seq<T>, p: T -> bool)
    ensures IsSubsequence(Filter(s, p), s)
    decreases |s|
  {
    if |s| > 0 {
      FilterIsSubsequence(s[1..], p);
      if !p(s[0]) {
        SubsequenceOfTail(Filter(s, p), s);
      }
    }
  }

  /** A filter whose predicate holds everywhere is the identity. */
  lemma {:induction false} FilterKeepsAll<T>(s: seq<T>, p: T -> bool)
    requires forall i :: 0 <= i < |s| ==> p(s[i])
    ensures Filter(s, p) == s
    decreases |s|
  {
    if |s| > 0 {
      FilterKeepsAll(s[1..], p);
      assert [s[0]] + s[1..] == s;
    }
  }

  /** Two filters in a row are one filter on the conjunction. */
  lemma {:induction false} FilterFuse<T>(s: seq<T>, p: T -> bool, q: T -> bool, pq: T -> bool)
    requires forall x :: pq(x) == (p(x) && q(x))
    ensures Filter(Filter(s, p), q) == Filter(s, pq)
    decreases |s|
  {
    if |s| > 0 {
      FilterFuse(s[1..], p, q, pq);
    }
  }

  /** Filters depend only on the values their predicates take on the input. */
  lemma {:induction false} FilterCongruent<T>(s: seq<T>, p: T -> bool, q: T -> bool)
    requires forall i :: 0 <= i < |s| ==> p(s[i]) == q(s[i])
    ensures Filter(s, p) == Filter(s, q)
    decreases |s|
  {
    if |s| > 0 {
      FilterCongruent(s[1..], p, q);
    }
  }

  /** A filter applied only when `active` is a filter whose predicate lets
      everything through otherwise. */
  lemma FilterWhen<T>(s: seq<T>, active: bool, p: T -> bool, q: T -> bool)
    requires forall x :: q(x) == (!active || p(x))
    ensures (if active then Filter(s, p) else s) == Filter(s, q)
  {
    if active {
      FilterCongruent(s, p, q);
    } else {
      FilterKeepsAll(s, q);
    }
  }

  /** `xs.filter(p).length`. */
  function Count<T>(s: seq<T>, p: T -> bool): (n: nat)
    ensures n <= |s|
  {
    if |s| == 0 then 0
    else (if p(s[0]) then 1 else 0) + Count(s[1..], p)
  }

  lemma {:induction false} CountIsFilterLength<T>(s: seq<T>, p: T -> bool)
    ensures Count(s, p) == |Filter(s, p)|
    decreases |s|
  {
    if |s| > 0 { CountIsFilterLength(s[1..], p); }
  }

  /** Every element is counted exactly when the predicate holds throughout. */
  lemma {:induction false} CountAllIff<T>(s: seq<T>, p: T -> bool)
    ensures Count(s, p) == |s| <==> forall i :: 0 <= i < |s| ==> p(s[i])
    decreases |s|
  {
    if |s| > 0 {
      CountAllIff(s[1..], p);
      assert forall i :: 1 <= i < |s| ==> s[i] == s[1..][i - 1];
    }
  }

  /** Nothing is counted exactly when the predicate holds nowhere. */
  lemma {:induction false} CountNoneIff<T>(s: seq<T>, p: T -> bool)
    ensures Count(s, p) == 0 <==> forall i :: 0 <= i < |s| ==> !p(s[i])
    decreases |s|
  {
    if |s| > 0 {
      CountNoneIff(s[1..], p);
      assert forall i :: 1 <= i < |s| ==> s[i] == s[1..][i - 1];
    }
  }

  /** Elements satisfy exactly one of two complementary predicates. */
  lemma {:induction false} CountComplement<T>(s: seq<T>, p: T -> bool, q: T -> bool)
    requires forall x :: q(x) == !p(x)
    ensures Count(s, p) + Count(s, q) == |s|
    decreases |s|
  {
    if |s| > 0 { CountComplement(s[1..], p, q); }
  }

  /** `xs.reduce((sum, x) => sum + f(x), 0)`. */
  function SumOf<T>(s: seq<T>, f: T -> int): int {
    if |s| == 0 then 0 else f(s[0]) + SumOf(s[1..], f)
  }

  lemma {:induction false} SumOfConcat<T>(a: seq<T>, b: seq<T>, f: T -> int)
    ensures SumOf(a + b, f) == SumOf(a, f) + SumOf(b, f)
    decreases |a|
  {
    if |a| > 0 {
      assert (a + b)[0] == a[0];
      assert (a + b)[1..] == a[1..] + b;
      SumOfConcat(a[1..], b, f);
    } else {
      assert a + b == b;
    }
  }

  lemma {:induction false} CountConcat<T>(a: seq<T>, b: seq<T>, p: T -> bool)
    ensures Count(a + b, p) == Count(a, p) + Count(b, p)
    decreases |a|
  {
    if |a| > 0 {
      assert (a + b)[0] == a[0];
      assert (a + b)[1..] == a[1..] + b;
      CountConcat(a[1..], b, p);
    } else {
      assert a + b == b;
    }
  }

  lemma SplitAt<T>(b: seq<T>, i: int)
    requires 0 <= i < |b|
    ensures b == b[..i] + [b[i]] + b[i + 1..]
    ensures multiset(b) == multiset(b[..i] + b[i + 1..]) + multiset{b[i]}
  {
    assert b == b[..i] + [b[i]] + b[i + 1..];
  }

  lemma {:induction false} SumOfRemove<T>(b: seq<T>, i: int, f: T -> int)
    requires 0 <= i < |b|
    ensures SumOf(b, f) == f(b[i]) + SumOf(b[..i] + b[i + 1..], f)
  {
    SumOfConcat(b[..i], [b[i]] + b[i + 1..], f);
    SumOfConcat(b[..i], b[i + 1..], f);
    assert ([b[i]] + b[i + 1..])[1..] == b[i + 1..];
    assert b[..i] + ([b[i]] + b[i + 1..]) == b;
  }

  /** Taking the head off one side and a matching element off the other
      keeps two permutations permutations of each other. */
  lemma RemoveMatching<T>(a: seq<T>, b: seq<T>, i: int)
    requires multiset(a) == multiset(b) && |a| > 0
    requires 0 <= i < |b| && b[i] == a[0]
    ensures multiset(a[1..]) == multiset(b[..i] + b[i + 1..])
  {
    SplitAt(b, i);
    assert a == [a[0]] + a[1..];
    assert multiset(a) == multiset{a[0]} + multiset(a[1..]);
    assert multiset(a[1..]) == multiset(a) - multiset{a[0]};
    assert multiset(b[..i] + b[i + 1..]) == multiset(b) - multiset{a[0]};
  }

  /** A sum over a sequence depends only on its multiset of elements. */
  lemma {:induction false} SumOfPermutation<T>(a: seq<T>, b: seq<T>, f: T -> int)
    requires multiset(a) == multiset(b)
    ensures SumOf(a, f) == SumOf(b, f)
    decreases |a|
  {
    if |a| == 0 {
      assert |multiset(b)| == 0;
    } else {
      var x := a[0];
      assert x in multiset(b);
      var i :| 0 <= i < |b| && b[i] == x;
      var rest := b[..i] + b[i + 1..];
      RemoveMatching(a, b, i);
      SumOfPermutation(a[1..], rest, f);
      SumOfRemove(b, i, f);
    }
  }

  function Indicator<T>(p: T -> bool): T -> int {
    x => if p(x) then 1 else 0
  }

  lemma {:induction false} CountIsSum<T>(s: seq<T>, p: T -> bool)
    ensures Count(s, p) == SumOf(s, Indicator(p))
    decreases |s|
  {
    if |s| > 0 { CountIsSum(s[1..], p); }
  }

  /** A count over a sequence depends only on its multiset of elements. */
  lemma CountPermutation<T>(a: seq<T>, b: seq<T>, p: T -> bool)
    requires multiset(a) == multiset(b)
    ensures Count(a, p) == Count(b, p)
  {
    CountIsSum(a, p);
    CountIsSum(b, p);
    SumOfPermutation(a, b, Indicator(p));
  }

  /** Sorted by `key`, largest first. */
  predicate SortedDesc<T>(s: seq<T>, key: T -> int) {
    forall i, j :: 0 <= i < j < |s| ==> key(s[i]) >= key(s[j])
  }

  /** Inserts `x` in front of the first element whose key is not larger, so
      among equal keys the element inserted later (earlier in the input of
      `SortDesc`) comes first. */
  function Insert<T>(x: T, s: seq<T>, key: T -> int): (r: seq<T>)
    ensures multiset(r) == multiset(s) + multiset{x}
    ensures |r| == |s| + 1
  {
    if |s| == 0 then [x]
    else if key(x) >= key(s[0]) then [x] + s
    else
      assert s == [s[0]] + s[1..];
      [s[0]] + Insert(x, s[1..], key)
  }

  lemma {:induction false} InsertSorted<T>(x: T, s: seq<T>, key: T -> int)
    requires SortedDesc(s, key)
    ensures SortedDesc(Insert(x, s, key), key)
    ensures Insert(x, s, key)[0] == x || (|s| > 0 && Insert(x, s, key)[0] == s[0])
    decreases |s|
  {
    if |s| > 0 && key(x) < key(s[0]) {
      var rest := Insert(x, s[1..], key);
      InsertSorted(x, s[1..], key);
      assert key(rest[0]) <= key(s[0]);
      var r := [s[0]] + rest;
      forall i, j | 0 <= i < j < |r| ensures key(r[i]) >= key(r[j]) {
        if i > 0 {
          assert r[i] == rest[i - 1] && r[j] == rest[j - 1];
        } else {
          assert key(rest[0]) >= key(rest[j - 1]);
        }
      }
    }
  }

  /** A stable sort, largest key first: the behaviour of
      `xs.sort((a, b) => key(b) - key(a))` on an engine whose sort is stable. */
  function SortDesc<T>(s: seq<T>, key: T -> int): (r: seq<T>)
    ensures SortedDesc(r, key)
    ensures multiset(r) == multiset(s)
    ensures |r| == |s|
  {
    if |s| == 0 then []
    else
      assert s == [s[0]] + s[1..];
      var rest := SortDesc(s[1..], key);
      InsertSorted(s[0], rest, key);
      Insert(s[0], rest, key)
  }

  /** `xs.slice(0, k)`. */
  function Take<T>(s: seq<T>, k: nat): (r: seq<T>)
    ensures |r| == if |s| <= k then |s| else k
    ensures forall i :: 0 <= i < |r| ==> r[i] == s[i]
  {
    if |s| <= k then s else s[..k]
  }

  /** The first `k` of a descending sort are sorted, come from the input,
      and no left-out element has a larger key than any kept one. */
  lemma TopDominates<T>(s: seq<T>, key: T -> int, k: nat)
    ensures SortedDesc(Take(SortDesc(s, key), k), key)
    ensures forall x :: x in Take(SortDesc(s, key), k) ==> x in s
    ensures forall x, y :: x in Take(SortDesc(s, key), k) && y in s && y !in Take(SortDesc(s, key), k) ==> key(y) <= key(x)
  {
    var sorted := SortDesc(s, key);
    var top := Take(sorted, k);
    forall x | x in top ensures x in s {
      var i :| 0 <= i < |top| && top[i] == x;
      assert x in multiset(sorted);
    }
    forall x, y | x in top && y in s && y !in top ensures key(y) <= key(x) {
      assert y in multiset(sorted);
      var j :| 0 <= j < |sorted| && sorted[j] == y;
      var i :| 0 <= i < |top| && top[i] == x;
      assert forall m :: 0 <= m < |top| ==> sorted[m] != y;
      assert key(sorted[i]) >= key(sorted[j]);
    }
  }

  /** The head of the descending sort is the first element, in input order,
      whose key is maximal. */
  ghost predicate IsFirstMax<T>(s: seq<T>, key: T -> int, i: int) {
    && 0 <= i < |s|
    && (forall j :: 0 <= j < |s| ==> key(s[j]) <= key(s[i]))
    && (forall j :: 0 <= j < i ==> key(s[j]) < key(s[i]))
  }

  lemma FirstMaxUnique<T>(s: seq<T>, key: T -> int, i: int, j: int)
    requires IsFirstMax(s, key, i) && IsFirstMax(s, key, j)
    ensures i == j
  {
    assert key(s[i]) == key(s[j]);
  }

  /** Where `Insert` puts its element relative to the old head. */
  lemma InsertHead<T>(x: T, s: seq<T>, key: T -> int)
    requires |s| > 0
    ensures key(x) >= key(s[0]) ==> Insert(x, s, key)[0] == x
    ensures key(x) < key(s[0]) ==> Insert(x, s, key)[0] == s[0]
  {
  }

  /** A first maximum of the tail moves one place right when the new head
      is smaller, and the new head is the first maximum otherwise. */
  lemma FirstMaxOfCons<T>(s: seq<T>, key: T -> int, i: int)
    requires |s| > 1 && IsFirstMax(s[1..], key, i)
    ensures key(s[0]) >= key(s[1..][i]) ==> IsFirstMax(s, key, 0)
    ensures key(s[0]) < key(s[1..][i]) ==> IsFirstMax(s, key, i + 1)
  {
    assert forall j :: 1 <= j < |s| ==> s[j] == s[1..][j - 1];
  }

  lemma {:induction false} SortDescHeadIsFirstMax<T>(s: seq<T>, key: T -> int)
    requires |s| > 0
    ensures exists i :: IsFirstMax(s, key, i) && SortDesc(s, key)[0] == s[i]
    decreases |s|
  {
    if |s| == 1 {
      assert IsFirstMax(s, key, 0);
    } else {
      var t := s[1..];
      SortDescHeadIsFirstMax(t, key);
      var i :| IsFirstMax(t, key, i) && SortDesc(t, key)[0] == t[i];
      assert SortDesc(s, key) == Insert(s[0], SortDesc(t, key), key);
      InsertHead(s[0], SortDesc(t, key), key);
      FirstMaxOfCons(s, key, i);
      if key(s[0]) >= key(t[i]) {
        assert SortDesc(s, key)[0] == s[0];
      } else {
        assert SortDesc(s, key)[0] == s[i + 1];
      }
    }
  }
}
