/** Sequence helpers behind the source's `Array.prototype.sort` with a numeric
    comparator (a stable sort, as ECMAScript 2019 requires), `Set` insertion,
    `filter`, and the random shuffles. */
module Sorting {

  /** `s` is ordered by non-decreasing `key`. */
  predicate SortedBy<T>(s: seq<T>, key: T -> int) {
    forall i, j :: 0 <= i < j < |s| ==> key(s[i]) <= key(s[j])
  }

  predicate Distinct<T(==)>(s: seq<T>) {
    forall i, j :: 0 <= i < j < |s| ==> s[i] != s[j]
  }

  predicate StrictlyAscending(s: seq<int>) {
    forall i, j :: 0 <= i < j < |s| ==> s[i] < s[j]
  }

  function Id(x: int): int { x }

  /** Inserts `x` in front of the first element whose key is not smaller,
      so that `x` precedes the equal-keyed elements that came after it. */
  function InsertBy<T>(x: T, s: seq<T>, key: T -> int): (r: seq<T>)
    ensures multiset(r) == multiset(s) + multiset{x}
    ensures forall y :: y in r ==> y == x || y in s
  {
    if s == [] then [x]
    else if key(x) <= key(s[0]) then [x] + s
    else
      assert s == [s[0]] + s[1..];
      [s[0]] + InsertBy(x, s[1..], key)
  }

  /** Prepending an element whose key is at most every key keeps order. */
  lemma PrependSorted<T>(x: T, s: seq<T>, key: T -> int)
    requires SortedBy(s, key)
    requires forall y :: y in s ==> key(x) <= key(y)
    ensures SortedBy([x] + s, key)
  {
    var r := [x] + s;
    forall i, j | 0 <= i < j < |r| ensures key(r[i]) <= key(r[j]) {
      assert r[j] == s[j - 1];
      if i > 0 {
        assert r[i] == s[i - 1];
      }
    }
  }

  lemma SortedTail<T>(s: seq<T>, key: T -> int)
    requires SortedBy(s, key) && s != []
    ensures SortedBy(s[1..], key)
    ensures forall y :: y in s[1..] ==> key(s[0]) <= key(y)
  {
    var tail := s[1..];
    forall i, j | 0 <= i < j < |tail| ensures key(tail[i]) <= key(tail[j]) {
      assert tail[i] == s[i + 1] && tail[j] == s[j + 1];
    }
    forall y | y in tail ensures key(s[0]) <= key(y) {
      var k :| 0 <= k < |tail| && tail[k] == y;
      assert s[k + 1] == y;
    }
  }

  lemma {:induction false} InsertBySorted<T>(x: T, s: seq<T>, key: T -> int)
    requires SortedBy(s, key)
    ensures SortedBy(InsertBy(x, s, key), key)
  {
    if s == [] {
    } else {
      SortedTail(s, key);
      if key(x) <= key(s[0]) {
        assert forall y :: y in s ==> y == s[0] || y in s[1..];
        PrependSorted(x, s, key);
      } else {
        var rest := InsertBy(x, s[1..], key);
        InsertBySorted(x, s[1..], key);
        PrependSorted(s[0], rest, key);
      }
    }
  }

  /** Stable insertion sort by ascending `key`. */
  function SortBy<T>(s: seq<T>, key: T -> int): (r: seq<T>)
    ensures multiset(r) == multiset(s) && |r| == |s|
    ensures SortedBy(r, key)
  {
    if s == [] then []
    else
      assert s == [s[0]] + s[1..];
      InsertBySorted(s[0], SortBy(s[1..], key), key);
      InsertBy(s[0], SortBy(s[1..], key), key)
  }

  /** The elements of `s` whose key is `k`, in their order in `s`. */
  function WithKey<T>(s: seq<T>, key: T -> int, k: int): seq<T> {
    if s == [] then []
    else (if key(s[0]) == k then [s[0]] else []) + WithKey(s[1..], key, k)
  }

  lemma WithKeyCons<T>(y: T, t: seq<T>, key: T -> int, k: int)
    ensures WithKey([y] + t, key, k) == (if key(y) == k then [y] else []) + WithKey(t, key, k)
  {
    assert ([y] + t)[0] == y && ([y] + t)[1..] == t;
  }

  /** Among equal keys, the inserted element goes first. */
  lemma {:induction false} InsertByWithKey<T>(x: T, s: seq<T>, key: T -> int, k: int)
    ensures WithKey(InsertBy(x, s, key), key, k) == (if key(x) == k then [x] else []) + WithKey(s, key, k)
  {
    if s == [] {
      WithKeyCons(x, [], key, k);
      assert [x] + [] == [x];
    } else if key(x) <= key(s[0]) {
      WithKeyCons(x, s, key, k);
    } else {
      InsertByWithKey(x, s[1..], key, k);
      InsertPastHead(x, s, key, k);
    }
  }

  /** The step where `x` goes past the head of `s`, whose key is smaller. */
  lemma InsertPastHead<T>(x: T, s: seq<T>, key: T -> int, k: int)
    requires s != [] && key(x) > key(s[0])
    requires WithKey(InsertBy(x, s[1..], key), key, k) ==
             (if key(x) == k then [x] else []) + WithKey(s[1..], key, k)
    ensures WithKey(InsertBy(x, s, key), key, k) == (if key(x) == k then [x] else []) + WithKey(s, key, k)
  {
    var own: seq<T> := if key(x) == k then [x] else [];
    var head: seq<T> := if key(s[0]) == k then [s[0]] else [];
    var rest := InsertBy(x, s[1..], key);
    var w := WithKey(s[1..], key, k);
    assert InsertBy(x, s, key) == [s[0]] + rest;
    WithKeyCons(s[0], rest, key, k);
    assert WithKey(s, key, k) == head + w;
    SwapDisjoint(key(x), key(s[0]), x, s[0], key, k);
    ConcatAssoc(head, own, w);
    ConcatAssoc(own, head, w);
  }

  lemma ConcatAssoc<T>(a: seq<T>, b: seq<T>, c: seq<T>)
    ensures a + (b + c) == (a + b) + c
  {
  }

  /** Two singletons with different keys cannot both have key `k`, so their
      contributions commute. */
  lemma SwapDisjoint<T>(kx: int, ky: int, x: T, y: T, key: T -> int, k: int)
    requires kx == key(x) && ky == key(y) && kx != ky
    ensures (if key(y) == k then [y] else []) + (if key(x) == k then [x] else [])
         == (if key(x) == k then [x] else []) + (if key(y) == k then [y] else [])
  {
  }

  /** The sort is stable: the elements of each key keep their relative order. */
  lemma {:induction false} SortByStable<T>(s: seq<T>, key: T -> int, k: int)
    ensures WithKey(SortBy(s, key), key, k) == WithKey(s, key, k)
  {
    if s != [] {
      SortByStable(s[1..], key, k);
      InsertByWithKey(s[0], SortBy(s[1..], key), key, k);
    }
  }

  lemma SortByStableAll<T>(s: seq<T>, key: T -> int)
    ensures forall k :: WithKey(SortBy(s, key), key, k) == WithKey(s, key, k)
  {
    forall k ensures WithKey(SortBy(s, key), key, k) == WithKey(s, key, k) {
      SortByStable(s, key, k);
    }
  }

  /** An unspecified permutation of `s`, standing for a sort with a random
      comparator: `choices[0] % |s|` picks the element that goes first, the
      rest is shuffled by the remaining choices. */
  function Shuffle<T>(s: seq<T>, choices: seq<nat>): (r: seq<T>)
    ensures multiset(r) == multiset(s) && |r| == |s|
    decreases |choices|
  {
    if |s| <= 1 || choices == [] then s
    else
      var j := choices[0] % |s|;
      assert s == s[..j] + [s[j]] + s[j + 1..];
      [s[j]] + Shuffle(s[..j] + s[j + 1..], choices[1..])
  }

  /** Every permutation of `s` is the outcome of some choices. */
  lemma {:induction false} ShuffleReachesEveryPermutation<T>(s: seq<T>, p: seq<T>)
    requires multiset(p) == multiset(s)
    ensures exists choices :: Shuffle(s, choices) == p
    decreases |s|
  {
    SameMultisetSameLength(p, s);
    if |s| <= 1 {
      ShortPermutation(s, p);
      assert Shuffle(s, []) == s;
    } else {
      assert p[0] in multiset(s);
      assert p[0] in s;
      var j :| 0 <= j < |s| && s[j] == p[0];
      var rest := s[..j] + s[j + 1..];
      RestPermutation(s, p, j);
      ShuffleReachesEveryPermutation(rest, p[1..]);
      var tail :| Shuffle(rest, tail) == p[1..];
      ShuffleCons(s, p, j, tail);
    }
  }

  /** Taking the same element off both sides keeps them permutations. */
  lemma RestPermutation<T>(s: seq<T>, p: seq<T>, j: int)
    requires multiset(p) == multiset(s) && 0 <= j < |s| && 0 < |p| && s[j] == p[0]
    ensures multiset(p[1..]) == multiset(s[..j] + s[j + 1..])
  {
    assert p == [p[0]] + p[1..];
    assert multiset(p) == multiset{p[0]} + multiset(p[1..]);
    assert s == s[..j] + [s[j]] + s[j + 1..];
    assert multiset(s) == multiset{s[j]} + multiset(s[..j] + s[j + 1..]);
    AddCancel(multiset{p[0]}, multiset(p[1..]), multiset(s[..j] + s[j + 1..]));
  }

  lemma AddCancel<T>(m: multiset<T>, a: multiset<T>, b: multiset<T>)
    requires m + a == m + b
    ensures a == b
  {
    assert a == (m + a) - m;
  }

  lemma SameMultisetSameLength<T>(a: seq<T>, b: seq<T>)
    requires multiset(a) == multiset(b)
    ensures |a| == |b|
  {
    assert |multiset(a)| == |a| && |multiset(b)| == |b|;
  }

  lemma ShortPermutation<T>(s: seq<T>, p: seq<T>)
    requires |s| <= 1 && |p| == |s| && multiset(p) == multiset(s)
    ensures p == s
  {
    if |s| == 1 {
      assert p[0] in multiset(s);
    }
  }

  lemma ShuffleCons<T>(s: seq<T>, p: seq<T>, j: nat, tail: seq<nat>)
    requires 1 < |s| && j < |s| && 0 < |p| && s[j] == p[0]
    requires Shuffle(s[..j] + s[j + 1..], tail) == p[1..]
    ensures Shuffle(s, [j] + tail) == p
  {
    ShuffleFirst(s, j, tail);
    assert [p[0]] + p[1..] == p;
  }

  /** The first choice picks the element that goes first. */
  lemma ShuffleFirst<T>(s: seq<T>, j: nat, tail: seq<nat>)
    requires 1 < |s| && j < |s|
    ensures Shuffle(s, [j] + tail) == [s[j]] + Shuffle(s[..j] + s[j + 1..], tail)
  {
    var c := [j] + tail;
    assert c != [] && c[0] == j && c[1..] == tail;
    ModSmall(j, |s|);
    assert c[0] % |s| == j;
    assert Shuffle(s, c) == [s[j]] + Shuffle(s[..j] + s[j + 1..], c[1..]);
  }

  lemma ModSmall(j: int, n: int)
    requires 0 <= j < n
    ensures j % n == j
  {}

  /** `s.filter(y => y !== x)`. */
  function RemoveAll(s: seq<int>, x: int): (r: seq<int>)
    ensures forall y :: y in r <==> y in s && y != x
    ensures StrictlyAscending(s) ==> StrictlyAscending(r)
  {
    if s == [] then []
    else if s[0] == x then RemoveAll(s[1..], x)
    else
      var rest := RemoveAll(s[1..], x);
      StrictHeadBelowTail(s, rest);
      [s[0]] + rest
  }

  lemma StrictHeadBelowTail(s: seq<int>, rest: seq<int>)
    requires |s| > 0
    requires forall y :: y in rest ==> y in s[1..]
    requires StrictlyAscending(s[1..]) ==> StrictlyAscending(rest)
    ensures StrictlyAscending(s) ==> StrictlyAscending([s[0]] + rest)
  {
    if StrictlyAscending(s) {
      var tail := s[1..];
      assert StrictlyAscending(tail) by {
        forall i, j | 0 <= i < j < |tail| ensures tail[i] < tail[j] {
          assert tail[i] == s[i + 1] && tail[j] == s[j + 1];
        }
      }
      var r := [s[0]] + rest;
      forall i, j | 0 <= i < j < |r| ensures r[i] < r[j] {
        if i == 0 {
          assert r[j] == rest[j - 1] && rest[j - 1] in rest;
          var k :| 0 <= k < |tail| && tail[k] == r[j];
          assert s[k + 1] == r[j];
        } else {
          assert r[i] == rest[i - 1] && r[j] == rest[j - 1];
        }
      }
    }
  }

  lemma {:induction false} DistinctIffSingleCounts<T>(s: seq<T>)
    ensures Distinct(s) <==> forall x :: multiset(s)[x] <= 1
  {
    if s != [] {
      DistinctIffSingleCounts(s[1..]);
      assert s == [s[0]] + s[1..];
      if Distinct(s) {
        assert s[0] !in s[1..];
      }
      if forall x :: multiset(s)[x] <= 1 {
        assert forall x :: multiset(s[1..])[x] <= 1 by {
          forall x ensures multiset(s[1..])[x] <= 1 {
            assert multiset(s)[x] == multiset(s[1..])[x] + (if x == s[0] then 1 else 0);
          }
        }
        assert s[0] !in multiset(s[1..]) by {
          assert multiset(s)[s[0]] == multiset(s[1..])[s[0]] + 1;
        }
        forall i, j | 0 <= i < j < |s| ensures s[i] != s[j] {
          if i == 0 {
            assert s[j] in s[1..];
          } else {
            assert s[1..][i - 1] == s[i] && s[1..][j - 1] == s[j];
          }
        }
      }
    }
  }

  /** Reordering keeps a duplicate-free sequence duplicate-free. */
  lemma DistinctPermutation<T>(a: seq<T>, b: seq<T>)
    requires multiset(a) == multiset(b) && Distinct(b)
    ensures Distinct(a)
  {
    DistinctIffSingleCounts(a);
    DistinctIffSingleCounts(b);
  }

  lemma DistinctPrefix<T>(s: seq<T>, n: nat)
    requires Distinct(s) && n <= |s|
    ensures Distinct(s[..n])
  {
  }

  /** Sorting a duplicate-free sequence of integers orders it strictly. */
  lemma SortDistinctStrict(s: seq<int>)
    requires Distinct(s)
    ensures StrictlyAscending(SortBy(s, Id))
  {
    var r := SortBy(s, Id);
    DistinctPermutation(r, s);
    forall i, j | 0 <= i < j < |r| ensures r[i] < r[j] {
      assert Id(r[i]) <= Id(r[j]);
      assert r[i] != r[j];
    }
  }

  /** A strictly ascending sequence is determined by its elements. */
  lemma {:induction false} StrictlyAscendingUnique(a: seq<int>, b: seq<int>)
    requires StrictlyAscending(a) && StrictlyAscending(b)
    requires forall x :: x in a <==> x in b
    ensures a == b
    decreases |a|
  {
    if a != [] {
      assert a[0] in a;
    }
    if b != [] {
      assert b[0] in b;
    }
    if a != [] && b != [] {
      HeadIsLeast(a);
      HeadIsLeast(b);
      assert a[0] == b[0];
      SameTails(a, b);
      StrictlyAscendingUnique(a[1..], b[1..]);
      assert a == [a[0]] + a[1..] && b == [b[0]] + b[1..];
    }
  }

  /** The head of a strictly ascending sequence is below everything after it. */
  lemma HeadIsLeast(a: seq<int>)
    requires StrictlyAscending(a) && a != []
    ensures forall x :: x in a ==> a[0] <= x
    ensures forall x :: x in a[1..] ==> a[0] < x && x in a
  {
    forall x | x in a ensures a[0] <= x {
      var k :| 0 <= k < |a| && a[k] == x;
    }
    forall x | x in a[1..] ensures a[0] < x && x in a {
      var k :| 0 <= k < |a[1..]| && a[1..][k] == x;
      assert a[k + 1] == x;
    }
  }

  /** With equal heads and equal members, the tails have equal members. */
  lemma SameTails(a: seq<int>, b: seq<int>)
    requires a != [] && b != [] && a[0] == b[0]
    requires forall x :: x in a <==> x in b
    requires forall x :: x in a[1..] ==> a[0] < x && x in a
    requires forall x :: x in b[1..] ==> b[0] < x && x in b
    ensures forall x :: x in a[1..] <==> x in b[1..]
  {
    assert a == [a[0]] + a[1..] && b == [b[0]] + b[1..];
  }
}
