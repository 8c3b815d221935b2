/**
 * `OrderBy`/`OrderByDescending` followed by `Take` and `Skip`. The database
 * decides the order of rows that compare equal, so results are specified as
 * "sorted by the ordering and drawn from the input", never as one exact order.
 * An ordering is a relation `le` where `le(a, b)` means that `a` may be listed
 * before `b`.
 */
module Sorting {
  import opened Collections

  /** `le` is total and transitive: it ranks every pair of rows consistently. */
  ghost predicate TotalPreorder<T(!new)>(le: (T, T) -> bool) {
    && (forall a, b :: le(a, b) || le(b, a))
    && (forall a, b, c :: le(a, b) && le(b, c) ==> le(a, c))
  }

  ghost predicate SortedBy<T>(s: seq<T>, le: (T, T) -> bool) {
    forall i, j | 0 <= i < j < |s| :: le(s[i], s[j])
  }

  /** Inserts `x` before the first element it may precede. */
  function Insert<T(==, !new)>(x: T, s: seq<T>, le: (T, T) -> bool): (r: seq<T>)
    requires TotalPreorder(le) && SortedBy(s, le)
    ensures multiset(r) == multiset(s) + multiset{x}
    ensures SortedBy(r, le)
  {
    if s == [] then [x]
    else if le(x, s[0]) then
      assert s == [s[0]] + s[1..];
      [x] + s
    else
      var rest := Insert(x, s[1..], le);
      HeadPrecedesAll(x, s, rest, le);
      [s[0]] + rest
  }

  /**
   * After `x`, which the head of `s` may precede, goes into the tail, the
   * head still goes in front of everything.
   */
  lemma HeadPrecedesAll<T(!new)>(x: T, s: seq<T>, rest: seq<T>, le: (T, T) -> bool)
    requires TotalPreorder(le) && SortedBy(s, le) && s != [] && !le(x, s[0])
    requires multiset(rest) == multiset(s[1..]) + multiset{x} && SortedBy(rest, le)
    ensures multiset([s[0]] + rest) == multiset(s) + multiset{x}
    ensures SortedBy([s[0]] + rest, le)
  {
    assert s == [s[0]] + s[1..];
    forall y | y in rest ensures le(s[0], y) {
      assert y in multiset(rest);
      if y != x {
        assert y in multiset(s[1..]);
        var k :| 0 <= k < |s[1..]| && s[1..][k] == y;
        assert s[k + 1] == y;
      }
    }
    var r := [s[0]] + rest;
    forall i, j | 0 <= i < j < |r| ensures le(r[i], r[j]) {
      assert r[j] == rest[j - 1];
      if i > 0 {
        assert r[i] == rest[i - 1];
      }
    }
  }

  /** A stable insertion sort: a sorted permutation of `s`. */
  function Sort<T(==, !new)>(s: seq<T>, le: (T, T) -> bool): (r: seq<T>)
    requires TotalPreorder(le)
    ensures multiset(r) == multiset(s)
    ensures SortedBy(r, le)
    ensures |r| == |s|
  {
    if s == [] then []
    else
      assert s == [s[0]] + s[1..];
      assert |multiset(s)| == |s|;
      var r := Insert(s[0], Sort(s[1..], le), le);
      assert |multiset(r)| == |r|;
      r
  }

  /**
   * `OrderBy(le).Take(k)`: the first `k` rows in order. No row left out
   * outranks a row that was taken.
   */
  function TopK<T(==, !new)>(s: seq<T>, le: (T, T) -> bool, k: nat): (r: seq<T>)
    requires TotalPreorder(le)
    ensures |r| == Min(k, |s|)
    ensures SortedBy(r, le)
    ensures multiset(r) <= multiset(s)
    ensures forall x, y | x in s && x !in r && y in r :: le(y, x)
    ensures |r| < k ==> multiset(r) == multiset(s)
    ensures forall x | x in r :: x in s
    ensures forall x | x in s && x !in r :: |r| == k
  {
    var sorted := Sort(s, le);
    TakeOfPermutation(s, sorted, k);
    TakeOutranks(s, sorted, le, k);
    Take(sorted, k)
  }

  /** The first `k` rows of a permutation of `s` are drawn from `s`, and are all of it when fewer than `k`. */
  lemma TakeOfPermutation<T>(s: seq<T>, sorted: seq<T>, k: nat)
    requires multiset(sorted) == multiset(s)
    ensures var r := Take(sorted, k);
      && multiset(r) <= multiset(s)
      && (|r| < k ==> multiset(r) == multiset(s))
      && (forall x | x in r :: x in s)
      && (forall x | x in s && x !in r :: |r| == k)
  {
    var r := Take(sorted, k);
    assert sorted == r + sorted[|r|..];
    assert multiset(r) <= multiset(sorted);
    forall x | x in r ensures x in s {
      assert x in multiset(r);
    }
    if |r| < k {
      assert r == sorted;
      forall x | x in s ensures x in r {
        assert x in multiset(s);
      }
    }
  }

  /** No row of `s` left out of the first `k` of its sorted permutation outranks a row taken. */
  lemma TakeOutranks<T>(s: seq<T>, sorted: seq<T>, le: (T, T) -> bool, k: nat)
    requires multiset(sorted) == multiset(s) && SortedBy(sorted, le)
    ensures var r := Take(sorted, k);
      forall x, y | x in s && x !in r && y in r :: le(y, x)
  {
    var r := Take(sorted, k);
    forall x, y | x in s && x !in r && y in r ensures le(y, x) {
      assert x in multiset(sorted);
      var j :| 0 <= j < |sorted| && sorted[j] == x;
      var i :| 0 <= i < |r| && r[i] == y;
      assert r[i] == sorted[i];
      assert j >= |r|;
    }
  }

  /**
   * `Where(p).OrderBy(le).Take(k)`: rows of `s` that pass, in order; a row
   * that passes is left out only when `k` rows were taken, each of which
   * may precede it.
   */
  lemma TopKOfFilter<T(!new)>(s: seq<T>, p: T -> bool, le: (T, T) -> bool, k: nat)
    requires TotalPreorder(le)
    ensures var r := TopK(Filter(s, p), le, k);
      && |r| <= k
      && multiset(r) <= multiset(s)
      && (forall x | x in r :: p(x))
      && SortedBy(r, le)
      && forall x | x in s && p(x) && x !in r :: |r| == k && forall y | y in r :: le(y, x)
  {
    var c := Filter(s, p);
    var r := TopK(c, le, k);
    forall x | x in r ensures p(x) {
      assert x in c;
    }
    forall x | x in s && p(x) && x !in r ensures |r| == k && forall y | y in r :: le(y, x) {
      assert x in c;
    }
  }

  /** `Skip(skip).Take(take)`: the rows at positions `skip` up to `skip + take`, clipped to `s`. */
  function Slice<T>(s: seq<T>, skip: nat, take: nat): (r: seq<T>)
    ensures |r| == Min(take, Max(0, |s| - skip))
    ensures forall i | 0 <= i < |r| :: r[i] == s[skip + i]
  {
    if skip >= |s| then [] else s[skip..skip + Min(take, |s| - skip)]
  }

  lemma SliceSubMultiset<T>(s: seq<T>, skip: nat, take: nat)
    ensures multiset(Slice(s, skip, take)) <= multiset(s)
  {
    var r := Slice(s, skip, take);
    if skip < |s| {
      assert s == s[..skip] + r + s[skip + |r|..];
    }
  }

  lemma SliceSorted<T>(s: seq<T>, le: (T, T) -> bool, skip: nat, take: nat)
    requires SortedBy(s, le)
    ensures SortedBy(Slice(s, skip, take), le)
  {
    var r := Slice(s, skip, take);
    forall i, j | 0 <= i < j < |r| ensures le(r[i], r[j]) {
      assert r[i] == s[skip + i] && r[j] == s[skip + j];
    }
  }

  /** Two adjacent slices together are the slice that spans both. */
  lemma SliceConcat<T>(s: seq<T>, skip: nat, a: nat, b: nat)
    ensures Slice(s, skip, a) + Slice(s, skip + a, b) == Slice(s, skip, a + b)
  {
    var x, y, z := Slice(s, skip, a), Slice(s, skip + a, b), Slice(s, skip, a + b);
    assert |x + y| == |z|;
    forall i | 0 <= i < |z| ensures (x + y)[i] == z[i] {
      if i >= |x| {
        assert (x + y)[i] == y[i - |x|];
      }
    }
  }

  /**
   * `OrderBy(le).Skip(skip).Take(take)`: one page of the ordered rows.
   */
  function Page<T(==, !new)>(s: seq<T>, le: (T, T) -> bool, skip: nat, take: nat): (r: seq<T>)
    requires TotalPreorder(le)
    ensures |r| == Min(take, Max(0, |s| - skip))
    ensures SortedBy(r, le)
    ensures multiset(r) <= multiset(s)
    ensures forall x | x in r :: x in s
  {
    var sorted := Sort(s, le);
    var r := Slice(sorted, skip, take);
    SliceSubMultiset(sorted, skip, take);
    assert forall x | x in r :: x in s by {
      forall x | x in r ensures x in s {
        assert x in multiset(r);
        assert x in multiset(sorted);
      }
    }
    r
  }

  /** Two consecutive pages together are the page that spans both. */
  lemma PageConcat<T(!new)>(s: seq<T>, le: (T, T) -> bool, skip: nat, a: nat, b: nat)
    requires TotalPreorder(le)
    ensures Page(s, le, skip, a) + Page(s, le, skip + a, b) == Page(s, le, skip, a + b)
  {
    SliceConcat(Sort(s, le), skip, a, b);
  }

  /** A page at the start that is as long as the input holds every row. */
  lemma PageAll<T(!new)>(s: seq<T>, le: (T, T) -> bool, take: nat)
    requires TotalPreorder(le) && take >= |s|
    ensures multiset(Page(s, le, 0, take)) == multiset(s)
  {
    SubMultisetOfSameSize(s, Page(s, le, 0, take));
  }
}
