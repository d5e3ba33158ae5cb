/** Building blocks shared by every module of the model: optional values and results,
    the list operations that Java streams provide (filter, count, sum, sort), and the
    string helpers the services rely on (ASCII case folding, substring search,
    decimal rendering). */
module Common {

  /** A nullable Java reference: `None` stands for `null`. */
  datatype Option<+T> = None | Some(value: T)

  /** The value of an operation, or the reason it threw / returned an error response. */
  datatype Result<+T, +E> = Ok(value: T) | Err(error: E)

  /** The HTTP status the controllers give a rejected request: 403 when the booking belongs
      to another user, 400 otherwise. */
  function RejectionStatus(notOwner: bool): (code: int)
    ensures code == 403 <==> notOwner
    ensures code == 400 || code == 403
  {
    if notOwner then 403 else 400
  }

  // ------------------------------------------------------------------
  // Lists
  // ------------------------------------------------------------------

  /** `list.stream().filter(p).collect(toList())`: the elements satisfying `p`, in order. */
  function Filter<T>(s: seq<T>, p: T -> bool): (r: seq<T>)
    ensures |r| <= |s|
    ensures forall i :: 0 <= i < |r| ==> r[i] in s && p(r[i])
    ensures forall i :: 0 <= i < |s| && p(s[i]) ==> s[i] in r
    decreases |s|
  {
    if s == [] then [] else (if p(s[0]) then [s[0]] else []) + Filter(s[1..], p)
  }

  /** Filtering a concatenation filters each part and keeps them in the same order. */
  lemma {:induction false} FilterAppend<T>(a: seq<T>, b: seq<T>, p: T -> bool)
    ensures Filter(a + b, p) == Filter(a, p) + Filter(b, p)
    decreases |a|
  {
    if a != [] {
      assert (a + b)[1..] == a[1..] + b;
      FilterAppend(a[1..], b, p);
    } else {
      assert a + b == b;
    }
  }

  /** Predicates that agree on every element keep the same elements. */
  lemma {:induction false} FilterAgreeing<T>(s: seq<T>, p: T -> bool, q: T -> bool)
    requires forall i :: 0 <= i < |s| ==> p(s[i]) == q(s[i])
    ensures Filter(s, p) == Filter(s, q)
    decreases |s|
  {
    if s != [] {
      FilterAgreeing(s[1..], p, q);
    }
  }

  /** An element is kept by a filter exactly when it is in the list and satisfies the predicate. */
  lemma FilterMembers<T>(s: seq<T>, p: T -> bool)
    ensures forall x :: x in Filter(s, p) <==> x in s && p(x)
  {
    forall x | x in s && p(x)
      ensures x in Filter(s, p)
    {
      var i :| 0 <= i < |s| && s[i] == x;
    }
  }

  /** `r` sits inside `s` in order: `idx` gives, strictly increasing, the position in `s` of
      each element of `r`. */
  ghost predicate EmbeddedAt<T>(r: seq<T>, s: seq<T>, idx: seq<nat>)
  {
    |idx| == |r| &&
    (forall i :: 0 <= i < |r| ==> idx[i] < |s| && r[i] == s[idx[i]]) &&
    (forall i, j :: 0 <= i < j < |r| ==> idx[i] < idx[j])
  }

  /** `r` is `s` with some elements left out and the rest kept in their order. */
  ghost predicate IsSubsequence<T>(r: seq<T>, s: seq<T>)
  {
    exists idx :: EmbeddedAt(r, s, idx)
  }

  /** Every position moved one place to the right. */
  function Shift(idx: seq<nat>): (r: seq<nat>)
    ensures |r| == |idx|
    ensures forall i :: 0 <= i < |idx| ==> r[i] == idx[i] + 1
  {
    seq(|idx|, i requires 0 <= i < |idx| => idx[i] + 1)
  }

  /** What sits in order inside the tail of `s` sits in order inside `s`. */
  lemma EmbeddedInTail<T>(r: seq<T>, s: seq<T>, idx: seq<nat>)
    requires s != [] && EmbeddedAt(r, s[1..], idx)
    ensures EmbeddedAt(r, s, Shift(idx))
  {
  }

  /** Putting the head of `s` in front keeps the embedding, at position 0. */
  lemma EmbeddedWithHead<T>(r: seq<T>, s: seq<T>, idx: seq<nat>)
    requires s != [] && EmbeddedAt(r, s, Shift(idx))
    ensures EmbeddedAt([s[0]] + r, s, [0] + Shift(idx))
  {
  }

  /** A filter keeps its elements in their original order. */
  lemma {:induction false} FilterIsSubsequence<T>(s: seq<T>, p: T -> bool)
    ensures IsSubsequence(Filter(s, p), s)
    decreases |s|
  {
    if s == [] {
      assert EmbeddedAt(Filter(s, p), s, []);
    } else {
      FilterIsSubsequence(s[1..], p);
      var rest := Filter(s[1..], p);
      var idx :| EmbeddedAt(rest, s[1..], idx);
      EmbeddedInTail(rest, s, idx);
      if p(s[0]) {
        EmbeddedWithHead(rest, s, idx);
        assert Filter(s, p) == [s[0]] + rest;
        assert EmbeddedAt(Filter(s, p), s, [0] + Shift(idx));
      } else {
        assert Filter(s, p) == rest;
        assert EmbeddedAt(Filter(s, p), s, Shift(idx));
      }
    }
  }

  /** `stream().filter(p).count()`. */
  function Count<T>(s: seq<T>, p: T -> bool): nat
  {
    |Filter(s, p)|
  }

  /** A count adds the first element's contribution to the count of the rest. */
  lemma CountCons<T>(s: seq<T>, p: T -> bool)
    requires s != []
    ensures Count(s, p) == (if p(s[0]) then 1 else 0) + Count(s[1..], p)
  {
  }

  /** Counting over a concatenation adds the counts of the parts. */
  lemma CountAppend<T>(a: seq<T>, b: seq<T>, p: T -> bool)
    ensures Count(a + b, p) == Count(a, p) + Count(b, p)
  {
    FilterAppend(a, b, p);
  }

  /** When every element satisfies the predicate the count is the length. */
  lemma {:induction false} CountAll<T>(s: seq<T>, p: T -> bool)
    requires forall i :: 0 <= i < |s| ==> p(s[i])
    ensures Count(s, p) == |s|
    decreases |s|
  {
    if s != [] {
      CountAll(s[1..], p);
    }
  }

  /** A stretch of elements that all satisfy the predicate bounds the count from below. */
  lemma CountSlice<T>(s: seq<T>, p: T -> bool, lo: int, hi: int)
    requires 0 <= lo <= hi <= |s|
    requires forall i :: lo <= i < hi ==> p(s[i])
    ensures Count(s, p) >= hi - lo
  {
    assert s == s[..lo] + (s[lo..hi] + s[hi..]);
    CountAppend(s[..lo], s[lo..hi] + s[hi..], p);
    CountAppend(s[lo..hi], s[hi..], p);
    CountAll(s[lo..hi], p);
  }

  /** Reordering a list does not change a count. */
  lemma {:induction false} CountPermutation<T>(a: seq<T>, b: seq<T>, p: T -> bool)
    requires multiset(a) == multiset(b)
    ensures Count(a, p) == Count(b, p)
    decreases |a|
  {
    if a == [] {
      assert |b| == |multiset(b)| == 0;
    } else {
      assert a[0] in multiset(b);
      var k :| 0 <= k < |b| && b[k] == a[0];
      var rest := b[..k] + b[k + 1..];
      assert b == b[..k] + ([b[k]] + b[k + 1..]);
      assert a == [a[0]] + a[1..];
      assert multiset(b) == multiset(b[..k]) + multiset{b[k]} + multiset(b[k + 1..]);
      assert multiset(rest) == multiset(b[..k]) + multiset(b[k + 1..]);
      assert multiset(a) == multiset{a[0]} + multiset(a[1..]);
      assert multiset(a[1..]) == multiset(a) - multiset{a[0]};
      assert multiset(rest) == multiset(b) - multiset{b[k]};
      CountPermutation(a[1..], rest, p);
      CountCons(a, p);
      CountAppend(b[..k], [b[k]] + b[k + 1..], p);
      CountCons([b[k]] + b[k + 1..], p);
      assert ([b[k]] + b[k + 1..])[1..] == b[k + 1..];
      CountAppend(b[..k], b[k + 1..], p);
    }
  }

  /** `a + (b + c) == (a + b) + c`. */
  lemma ConcatAssociates<T>(a: seq<T>, b: seq<T>, c: seq<T>)
    ensures a + (b + c) == (a + b) + c
  {
  }

  /** No two elements of `s` share a key. */
  predicate DistinctKeys<T, K(==)>(s: seq<T>, key: T -> K)
  {
    forall i, j :: 0 <= i < j < |s| ==> key(s[i]) != key(s[j])
  }

  function HasKey<T, K(==)>(key: T -> K, k: K): T -> bool
  {
    (x: T) => key(x) == k
  }

  /** When at most one element satisfies `p`, no element after one that does satisfies it. */
  lemma CountAtMostOneAfter<T>(s: seq<T>, p: T -> bool, i: nat, j: nat)
    requires Count(s, p) <= 1 && i < j < |s| && p(s[i])
    ensures !p(s[j])
  {
    assert s == s[..j] + s[j..];
    CountAppend(s[..j], s[j..], p);
    assert s[..j][i] == s[i];
    CountPositive(s[..j], p);
    assert s[j..][0] == s[j];
    CountPositive(s[j..], p);
  }

  /** Without repeated keys, at most one element has a given key. */
  lemma {:induction false} DistinctKeysCountAtMostOne<T, K>(s: seq<T>, key: T -> K, k: K)
    requires DistinctKeys(s, key)
    ensures Count(s, HasKey(key, k)) <= 1
    decreases |s|
  {
    if s != [] {
      var tail := s[1..];
      assert forall i :: 0 <= i < |tail| ==> tail[i] == s[i + 1];
      DistinctKeysCountAtMostOne(tail, key, k);
      CountCons(s, HasKey(key, k));
      if key(s[0]) == k {
        assert forall i :: 0 <= i < |tail| ==> !HasKey(key, k)(tail[i]);
        CountPositive(tail, HasKey(key, k));
      }
    }
  }

  /** Reordering a list keeps its keys distinct. */
  lemma PermutationKeepsDistinctKeys<T, K>(s: seq<T>, r: seq<T>, key: T -> K)
    requires multiset(r) == multiset(s) && DistinctKeys(s, key)
    ensures DistinctKeys(r, key)
  {
    forall i, j | 0 <= i < j < |r|
      ensures key(r[i]) != key(r[j])
    {
      var p := HasKey(key, key(r[i]));
      DistinctKeysCountAtMostOne(s, key, key(r[i]));
      CountPermutation(r, s, p);
      CountAtMostOneAfter(r, p, i, j);
    }
  }

  /** A filter of a list whose keys increase has increasing keys. */
  lemma FilterKeepsIncreasing<T>(s: seq<T>, p: T -> bool, key: T -> int)
    requires forall i, j :: 0 <= i < j < |s| ==> key(s[i]) < key(s[j])
    ensures forall i, j :: 0 <= i < j < |Filter(s, p)| ==> key(Filter(s, p)[i]) < key(Filter(s, p)[j])
  {
    FilterIsSubsequence(s, p);
    var idx :| EmbeddedAt(Filter(s, p), s, idx);
  }

  /** A count is positive exactly when some element satisfies the predicate. */
  lemma CountPositive<T>(s: seq<T>, p: T -> bool)
    ensures Count(s, p) > 0 <==> exists i :: 0 <= i < |s| && p(s[i])
  {
    var r := Filter(s, p);
    if Count(s, p) > 0 {
      assert r[0] in r;
      var i :| 0 <= i < |s| && s[i] == r[0];
      assert p(s[i]);
    }
    if exists i :: 0 <= i < |s| && p(s[i]) {
      var i :| 0 <= i < |s| && p(s[i]);
      assert s[i] in r;
    }
  }

  /** Two predicates that never hold together count at most the whole list. */
  lemma {:induction false} CountDisjoint<T>(s: seq<T>, p: T -> bool, q: T -> bool)
    requires forall i :: 0 <= i < |s| ==> !(p(s[i]) && q(s[i]))
    ensures Count(s, p) + Count(s, q) <= |s|
    decreases |s|
  {
    if s != [] {
      CountDisjoint(s[1..], p, q);
    }
  }

  /** A predicate that implies another on every element counts no more than it. */
  lemma {:induction false} CountMonotone<T>(s: seq<T>, p: T -> bool, q: T -> bool)
    requires forall i :: 0 <= i < |s| && p(s[i]) ==> q(s[i])
    ensures Count(s, p) <= Count(s, q)
    decreases |s|
  {
    if s != [] {
      CountMonotone(s[1..], p, q);
    }
  }

  /** Splitting by a second predicate partitions a count. */
  lemma {:induction false} CountSplit<T>(s: seq<T>, p: T -> bool, q: T -> bool, pq: T -> bool, pnq: T -> bool)
    requires forall i :: 0 <= i < |s| ==> (pq(s[i]) <==> p(s[i]) && q(s[i]))
    requires forall i :: 0 <= i < |s| ==> (pnq(s[i]) <==> p(s[i]) && !q(s[i]))
    ensures Count(s, p) == Count(s, pq) + Count(s, pnq)
    decreases |s|
  {
    if s != [] {
      CountSplit(s[1..], p, q, pq, pnq);
    }
  }

  /** The index of the first element satisfying `p` (`stream().filter(p).findFirst()`). */
  function FirstIndex<T>(s: seq<T>, p: T -> bool): (r: Option<nat>)
    ensures r.Some? ==> r.value < |s| && p(s[r.value])
    ensures r.Some? ==> forall j :: 0 <= j < r.value ==> !p(s[j])
    ensures r.None? ==> forall i :: 0 <= i < |s| ==> !p(s[i])
    decreases |s|
  {
    if s == [] then None
    else if p(s[0]) then Some(0)
    else match FirstIndex(s[1..], p)
      case None => None
      case Some(k) => Some(k + 1)
  }

  /** An index where `p` first holds is the one `FirstIndex` finds. */
  lemma {:induction false} FirstIndexIs<T>(s: seq<T>, p: T -> bool, i: nat)
    requires i < |s| && p(s[i])
    requires forall j :: 0 <= j < i ==> !p(s[j])
    ensures FirstIndex(s, p) == Some(i)
    decreases i
  {
    if i > 0 {
      FirstIndexIs(s[1..], p, i - 1);
    }
  }

  /** A sequence that agrees with `s` on `p` and on the elements of `s` satisfying it, and
      only adds elements that fail `p`, has its first `p`-element where `s` has it. */
  lemma FirstIndexAgrees<T>(s: seq<T>, s': seq<T>, p: T -> bool)
    requires |s| <= |s'|
    requires forall i :: 0 <= i < |s| ==> p(s'[i]) == p(s[i]) && (p(s[i]) ==> s'[i] == s[i])
    requires forall i :: |s| <= i < |s'| ==> !p(s'[i])
    ensures FirstIndex(s', p) == FirstIndex(s, p)
  {
    if FirstIndex(s, p).Some? {
      FirstIndexIs(s', p, FirstIndex(s, p).value);
    }
  }

  /** `stream().mapToDouble(f).sum()`, exactly (no floating-point rounding). */
  function Sum<T>(s: seq<T>, f: T -> real): real
    decreases |s|
  {
    if s == [] then 0.0 else f(s[0]) + Sum(s[1..], f)
  }

  lemma {:induction false} SumAppend<T>(a: seq<T>, b: seq<T>, f: T -> real)
    ensures Sum(a + b, f) == Sum(a, f) + Sum(b, f)
    decreases |a|
  {
    if a != [] {
      assert (a + b)[1..] == a[1..] + b;
      SumAppend(a[1..], b, f);
    } else {
      assert a + b == b;
    }
  }

  /** A sum of `n` terms each within [lo, hi] lies within [n * lo, n * hi]. */
  lemma {:induction false} SumBounds<T>(s: seq<T>, f: T -> real, lo: real, hi: real)
    requires forall i :: 0 <= i < |s| ==> lo <= f(s[i]) <= hi
    ensures |s| as real * lo <= Sum(s, f) <= |s| as real * hi
    decreases |s|
  {
    if s != [] {
      SumBounds(s[1..], f, lo, hi);
    }
  }

  /** A quotient of a total within [n·lo, n·hi] by n > 0 lies within [lo, hi]. */
  lemma QuotientBounds(total: real, n: real, lo: real, hi: real)
    requires n > 0.0 && n * lo <= total <= n * hi
    ensures lo <= total / n <= hi
  {
    var q := total / n;
    assert (q - lo) * n == total - lo * n;
    assert (hi - q) * n == hi * n - total;
  }

  /** The mean of values within [lo, hi] lies within [lo, hi]. */
  lemma MeanBounds<T>(s: seq<T>, f: T -> real, lo: real, hi: real)
    requires s != [] && forall i :: 0 <= i < |s| ==> lo <= f(s[i]) <= hi
    ensures lo <= Sum(s, f) / |s| as real <= hi
  {
    SumBounds(s, f, lo, hi);
    QuotientBounds(Sum(s, f), |s| as real, lo, hi);
  }

  /** `DoubleStream.max()` of a non-empty stream: its greatest element. */
  function MaxOf(s: seq<real>): (m: real)
    requires s != []
    ensures forall i :: 0 <= i < |s| ==> s[i] <= m
    ensures m in s
    decreases |s|
  {
    if |s| == 1 then s[0]
    else var m := MaxOf(s[1..]); if s[0] >= m then s[0] else m
  }

  /** `DoubleStream.min()` of a non-empty stream: its least element. */
  function MinOf(s: seq<real>): (m: real)
    requires s != []
    ensures forall i :: 0 <= i < |s| ==> m <= s[i]
    ensures m in s
    decreases |s|
  {
    if |s| == 1 then s[0]
    else var m := MinOf(s[1..]); if s[0] <= m then s[0] else m
  }

  /** The elements in index order with `f` applied: `stream().map(f).collect(toList())`. */
  function Map<T, U>(s: seq<T>, f: T -> U): (r: seq<U>)
    ensures |r| == |s|
    ensures forall i :: 0 <= i < |s| ==> r[i] == f(s[i])
  {
    seq(|s|, i requires 0 <= i < |s| => f(s[i]))
  }

  // ------------------------------------------------------------------
  // Ordering with nullable keys
  // ------------------------------------------------------------------

  /** "An element with key `a` may come before one with key `b`": ascending natural order
      with absent keys last (`Comparator.nullsLast(naturalOrder())`); `descending` reverses
      the order of present keys and still puts absent keys last. */
  predicate KeyPrecedes(a: Option<int>, b: Option<int>, descending: bool)
  {
    match a
    case None => b.None?
    case Some(x) => b.None? || (if descending then x >= b.value else x <= b.value)
  }

  predicate SortedBy<T>(s: seq<T>, key: T -> Option<int>, descending: bool)
  {
    forall i, j :: 0 <= i < j < |s| ==> KeyPrecedes(key(s[i]), key(s[j]), descending)
  }

  lemma KeyPrecedesTransitive(a: Option<int>, b: Option<int>, c: Option<int>, descending: bool)
    requires KeyPrecedes(a, b, descending) && KeyPrecedes(b, c, descending)
    ensures KeyPrecedes(a, c, descending)
  {
  }

  lemma KeyPrecedesTotal(a: Option<int>, b: Option<int>, descending: bool)
    ensures KeyPrecedes(a, b, descending) || KeyPrecedes(b, a, descending)
  {
  }

  /** An element that may precede every element of a sorted sequence can be put in front of it. */
  lemma ConsSorted<T>(y: T, s: seq<T>, key: T -> Option<int>, descending: bool)
    requires SortedBy(s, key, descending)
    requires forall j :: 0 <= j < |s| ==> KeyPrecedes(key(y), key(s[j]), descending)
    ensures SortedBy([y] + s, key, descending)
  {
    var r := [y] + s;
    forall i, j | 0 <= i < j < |r|
      ensures KeyPrecedes(key(r[i]), key(r[j]), descending)
    {
      assert r[j] == s[j - 1];
      if i > 0 {
        assert r[i] == s[i - 1];
      }
    }
  }

  /** What precedes the head of a sorted sequence precedes all of it. */
  lemma PrecedesHeadPrecedesAll<T>(x: T, s: seq<T>, key: T -> Option<int>, descending: bool)
    requires s != [] && SortedBy(s, key, descending)
    requires KeyPrecedes(key(x), key(s[0]), descending)
    ensures forall j :: 0 <= j < |s| ==> KeyPrecedes(key(x), key(s[j]), descending)
  {
    forall j | 0 <= j < |s|
      ensures KeyPrecedes(key(x), key(s[j]), descending)
    {
      if j > 0 {
        KeyPrecedesTransitive(key(x), key(s[0]), key(s[j]), descending);
      }
    }
  }

  /** The head of a sorted sequence precedes everything in the tail with `x` inserted, when
      it may precede `x`. */
  lemma HeadPrecedesInserted<T>(x: T, s: seq<T>, rest: seq<T>, key: T -> Option<int>, descending: bool)
    requires s != [] && SortedBy(s, key, descending)
    requires KeyPrecedes(key(s[0]), key(x), descending)
    requires multiset(rest) == multiset(s[1..]) + multiset{x}
    ensures forall j :: 0 <= j < |rest| ==> KeyPrecedes(key(s[0]), key(rest[j]), descending)
  {
    forall j | 0 <= j < |rest|
      ensures KeyPrecedes(key(s[0]), key(rest[j]), descending)
    {
      assert rest[j] in multiset(rest);
      if rest[j] != x {
        assert rest[j] in multiset(s[1..]);
        var m :| 0 <= m < |s[1..]| && s[1..][m] == rest[j];
        assert s[m + 1] == rest[j];
      }
    }
  }

  /** Inserts `x` before the first element it may precede. */
  function Insert<T>(x: T, s: seq<T>, key: T -> Option<int>, descending: bool): (r: seq<T>)
    requires SortedBy(s, key, descending)
    ensures SortedBy(r, key, descending)
    ensures multiset(r) == multiset(s) + multiset{x}
    ensures |r| == |s| + 1
    decreases |s|
  {
    if s == [] then [x]
    else if KeyPrecedes(key(x), key(s[0]), descending) then
      PrecedesHeadPrecedesAll(x, s, key, descending);
      ConsSorted(x, s, key, descending);
      [x] + s
    else
      var rest := Insert(x, s[1..], key, descending);
      KeyPrecedesTotal(key(x), key(s[0]), descending);
      HeadPrecedesInserted(x, s, rest, key, descending);
      ConsSorted(s[0], rest, key, descending);
      assert s == [s[0]] + s[1..];
      [s[0]] + rest
  }

  /** `list.sort(comparator)` for a comparator on a nullable integer key. */
  function SortBy<T>(s: seq<T>, key: T -> Option<int>, descending: bool): (r: seq<T>)
    ensures SortedBy(r, key, descending)
    ensures multiset(r) == multiset(s)
    ensures |r| == |s|
    decreases |s|
  {
    if s == [] then []
    else
      assert s == [s[0]] + s[1..];
      Insert(s[0], SortBy(s[1..], key, descending), key, descending)
  }

  /** Sorting neither adds nor drops an element. */
  lemma SortByMembers<T>(s: seq<T>, key: T -> Option<int>, descending: bool)
    ensures forall i :: 0 <= i < |SortBy(s, key, descending)| ==> SortBy(s, key, descending)[i] in s
    ensures forall i :: 0 <= i < |s| ==> s[i] in SortBy(s, key, descending)
  {
    var r := SortBy(s, key, descending);
    forall i | 0 <= i < |r|
      ensures r[i] in s
    {
      assert r[i] in multiset(r);
    }
    forall i | 0 <= i < |s|
      ensures s[i] in r
    {
      assert s[i] in multiset(s);
    }
  }

  /** Sorting keeps exactly the elements it was given. */
  lemma SortByKeeps<T>(s: seq<T>, key: T -> Option<int>, descending: bool)
    ensures forall x :: x in SortBy(s, key, descending) <==> x in s
  {
    var r := SortBy(s, key, descending);
    forall x | x in r
      ensures x in s
    {
      assert x in multiset(r);
    }
    forall x | x in s
      ensures x in r
    {
      assert x in multiset(s);
    }
  }

  // ------------------------------------------------------------------
  // Time
  // ------------------------------------------------------------------

  /** Minutes in an hour and in a day; minute 0 is a Monday, 00:00. */
  const MinutesPerHour: int := 60
  const MinutesPerDay: int := 1440

  /** `getHour()` of an instant given in minutes. */
  function HourOf(t: int): (h: int)
    ensures 0 <= h < 24
  {
    (t / MinutesPerHour) % 24
  }

  /** `getDayOfWeek().getValue()`: 1 for Monday up to 7 for Sunday. */
  function DayOfWeek(t: int): (d: int)
    ensures 1 <= d <= 7
  {
    (t / MinutesPerDay) % 7 + 1
  }

  // ------------------------------------------------------------------
  // Strings
  // ------------------------------------------------------------------

  function Lower(c: char): char
  {
    if 'A' <= c <= 'Z' then (c as int + 32) as char else c
  }

  function Upper(c: char): char
  {
    if 'a' <= c <= 'z' then (c as int - 32) as char else c
  }

  /** `String.toLowerCase()` on ASCII letters. */
  function ToLower(s: string): (r: string)
    ensures |r| == |s|
    ensures forall i :: 0 <= i < |s| ==> r[i] == Lower(s[i])
  {
    seq(|s|, i requires 0 <= i < |s| => Lower(s[i]))
  }

  /** `String.toUpperCase()` on ASCII letters. */
  function ToUpper(s: string): (r: string)
    ensures |r| == |s|
    ensures forall i :: 0 <= i < |s| ==> r[i] == Upper(s[i])
  {
    seq(|s|, i requires 0 <= i < |s| => Upper(s[i]))
  }

  /** `a.equalsIgnoreCase(b)` for ASCII text. */
  predicate EqualsIgnoreCase(a: string, b: string)
  {
    ToUpper(a) == ToUpper(b)
  }

  predicate OccursAt(s: string, sub: string, i: int)
  {
    0 <= i && i + |sub| <= |s| && s[i..i + |sub|] == sub
  }

  /** `s.contains(sub)`. */
  predicate Contains(s: string, sub: string)
  {
    exists i :: 0 <= i <= |s| - |sub| && OccursAt(s, sub, i)
  }

  /** `s.contains(c)` for a one-character string. */
  lemma ContainsChar(s: string, c: char)
    ensures Contains(s, [c]) <==> exists i :: 0 <= i < |s| && s[i] == c
  {
    if exists i :: 0 <= i < |s| && s[i] == c {
      var i :| 0 <= i < |s| && s[i] == c;
      assert OccursAt(s, [c], i);
    }
    if Contains(s, [c]) {
      var i :| 0 <= i <= |s| - 1 && OccursAt(s, [c], i);
      assert s[i..i + 1][0] == s[i];
    }
  }

  /** `s.trim().isEmpty()`: `trim` drops every character up to U+0020 at both ends. */
  predicate IsBlank(s: string)
  {
    forall i :: 0 <= i < |s| ==> s[i] <= ' '
  }

  function Digit(d: int): char
    requires 0 <= d < 10
  {
    "0123456789"[d]
  }

  predicate IsDecimalChar(c: char)
  {
    '0' <= c <= '9' || c == '-'
  }

  /** `String.valueOf(long)` for a non-negative value. */
  function NatToString(n: nat): (r: string)
    ensures |r| > 0
    ensures forall i :: 0 <= i < |r| ==> '0' <= r[i] <= '9'
  {
    if n < 10 then [Digit(n)] else NatToString(n / 10) + [Digit(n % 10)]
  }

  /** `String.valueOf(long)`: optional minus sign followed by decimal digits. */
  function IntToString(n: int): (r: string)
    ensures |r| > 0
    ensures forall i :: 0 <= i < |r| ==> IsDecimalChar(r[i])
  {
    if n < 0 then "-" + NatToString(-n) else NatToString(n)
  }
}
