/**
 * Sequence helpers shared by the query pipelines: LINQ's Where, Take, Skip and
 * Distinct, and the "no two rows share a key" predicate that primary keys and
 * the controllers' uniqueness checks establish.
 */
module Collections {
  import opened Wrappers

  function Min(a: int, b: int): int {
    if a <= b then a else b
  }

  function Max(a: int, b: int): int {
    if a <= b then b else a
  }

  /** The identity, used as the key of plain values. */
  function Self<T>(x: T): T {
    x
  }

  /** `r` can be obtained from `s` by deleting elements, keeping the order of the rest. */
  ghost predicate Subsequence<T>(r: seq<T>, s: seq<T>)
    decreases |s|
  {
    if r == [] then true
    else if s == [] then false
    else (r[0] == s[0] && Subsequence(r[1..], s[1..])) || Subsequence(r, s[1..])
  }

  /** No two positions of `s` carry the same key. */
  ghost predicate DistinctBy<T, K>(s: seq<T>, key: T -> K) {
    forall i, j | 0 <= i < j < |s| :: key(s[i]) != key(s[j])
  }

  ghost predicate NoDuplicates<T>(s: seq<T>) {
    DistinctBy(s, Self)
  }

  /** A prefix of a subsequence is a subsequence. */
  lemma {:induction false} SubsequencePrefix<T>(r: seq<T>, s: seq<T>, n: nat)
    requires Subsequence(r, s) && n <= |r|
    ensures Subsequence(r[..n], s)
    decreases |s|
  {
    if n > 0 {
      if r[0] == s[0] && Subsequence(r[1..], s[1..]) {
        SubsequencePrefix(r[1..], s[1..], n - 1);
        assert r[..n][1..] == r[1..][..n - 1];
      } else {
        SubsequencePrefix(r, s[1..], n);
      }
    }
  }

  /** A subsequence as long as the sequence is the sequence itself. */
  lemma {:induction false} SubsequenceOfSameSize<T>(r: seq<T>, s: seq<T>)
    requires Subsequence(r, s) && |r| == |s|
    ensures r == s
    decreases |s|
  {
    if s != [] {
      if !(r[0] == s[0] && Subsequence(r[1..], s[1..])) {
        SubsequenceShorter(r, s[1..]);
        assert false;
      }
      SubsequenceOfSameSize(r[1..], s[1..]);
    }
  }

  /** A subsequence is no longer than the sequence. */
  lemma {:induction false} SubsequenceShorter<T>(r: seq<T>, s: seq<T>)
    requires Subsequence(r, s)
    ensures |r| <= |s|
    decreases |s|
  {
    if r != [] {
      if r[0] == s[0] && Subsequence(r[1..], s[1..]) {
        SubsequenceShorter(r[1..], s[1..]);
      } else {
        SubsequenceShorter(r, s[1..]);
      }
    }
  }

  /** LINQ `Where`: the elements of `s` that satisfy `p`, in their original order. */
  function Filter<T(==, !new)>(s: seq<T>, p: T -> bool): (r: seq<T>)
    ensures forall x :: multiset(r)[x] == if p(x) then multiset(s)[x] else 0
    ensures multiset(r) <= multiset(s)
    ensures forall x :: x in r <==> x in s && p(x)
    ensures Subsequence(r, s)
    ensures |r| <= |s|
  {
    if s == [] then []
    else
      var rest := Filter(s[1..], p);
      assert s == [s[0]] + s[1..];
      if p(s[0]) then [s[0]] + rest else rest
  }

  /** Filtering a sequence whose every element passes leaves it as it is. */
  lemma FilterKeepsAll<T(!new)>(s: seq<T>, p: T -> bool)
    requires forall x | x in s :: p(x)
    ensures Filter(s, p) == s
  {
    var r := Filter(s, p);
    forall x ensures multiset(r)[x] == multiset(s)[x] {
      if x !in s {
        assert x !in multiset(s);
      }
    }
    assert multiset(r) == multiset(s);
    assert |r| == |multiset(r)| == |multiset(s)| == |s|;
    SubsequenceOfSameSize(r, s);
  }

  /** LINQ `Select(f)`: `f` applied to each element, in order. */
  function Map<T, U>(s: seq<T>, f: T -> U): (r: seq<U>)
    ensures |r| == |s|
    ensures forall i | 0 <= i < |s| :: r[i] == f(s[i])
  {
    seq(|s|, i requires 0 <= i < |s| => f(s[i]))
  }

  /** `Where(p).Select(f)` holds exactly the images of the elements that pass. */
  lemma MapFilterMembers<T(!new), U(!new)>(s: seq<T>, p: T -> bool, f: T -> U)
    ensures forall y :: y in Map(Filter(s, p), f) <==> exists x | x in s && p(x) :: f(x) == y
  {
    var kept := Filter(s, p);
    var r := Map(kept, f);
    forall y ensures y in r <==> exists x | x in s && p(x) :: f(x) == y {
      if y in r {
        var i :| 0 <= i < |r| && r[i] == y;
        assert kept[i] in kept;
      }
      if exists x | x in s && p(x) :: f(x) == y {
        var x :| x in s && p(x) && f(x) == y;
        var i :| 0 <= i < |kept| && kept[i] == x;
        assert r[i] == y;
      }
    }
  }

  /** LINQ `Count(p)`: the number of elements of `s` that satisfy `p`. */
  function Count<T>(s: seq<T>, p: T -> bool): (r: nat)
    ensures r <= |s|
  {
    if s == [] then 0 else Count(s[..|s| - 1], p) + (if p(s[|s| - 1]) then 1 else 0)
  }

  /** No element passes exactly when the count is 0, and every element passes exactly when it is the length. */
  lemma {:induction false} CountExtremes<T>(s: seq<T>, p: T -> bool)
    ensures Count(s, p) == 0 <==> forall x | x in s :: !p(x)
    ensures Count(s, p) == |s| <==> forall x | x in s :: p(x)
    decreases |s|
  {
    if s != [] {
      var init, last := s[..|s| - 1], s[|s| - 1];
      assert s == init + [last];
      CountExtremes(init, p);
    }
  }

  lemma AppendAssoc<T>(a: seq<T>, b: seq<T>, c: seq<T>)
    ensures a + (b + c) == (a + b) + c
  {
  }

  /** Filtering a sequence extended by one element extends the filtered sequence by that element when it passes. */
  lemma {:induction false} FilterSnoc<T(!new)>(a: seq<T>, x: T, p: T -> bool)
    ensures Filter(a + [x], p) == Filter(a, p) + (if p(x) then [x] else [])
    decreases |a|
  {
    var ax := a + [x];
    var tail := if p(x) then [x] else [];
    if a == [] {
      assert ax == [x] && ax[1..] == [];
      assert Filter(ax[1..], p) == [] && Filter(a, p) == [];
      assert Filter(ax, p) == tail;
    } else {
      assert ax[0] == a[0] && ax[1..] == a[1..] + [x];
      FilterSnoc(a[1..], x, p);
      var rest := Filter(a[1..], p);
      assert Filter(ax[1..], p) == rest + tail;
      assert Filter(a, p) == if p(a[0]) then [a[0]] + rest else rest;
      assert Filter(ax, p) == if p(a[0]) then [a[0]] + (rest + tail) else rest + tail;
      AppendAssoc([a[0]], rest, tail);
    }
  }

  /** The count is the length of the filtered sequence: `Count(p)` agrees with `Where(p).Count()`. */
  lemma {:induction false} CountIsFilterLength<T(!new)>(s: seq<T>, p: T -> bool)
    ensures Count(s, p) == |Filter(s, p)|
    decreases |s|
  {
    if s != [] {
      var init, last := s[..|s| - 1], s[|s| - 1];
      assert s == init + [last];
      CountIsFilterLength(init, p);
      FilterSnoc(init, last, p);
    }
  }

  /** Replacing one element changes the count by what the old and the new element contribute. */
  lemma {:induction false} CountUpdate<T>(s: seq<T>, i: nat, x: T, p: T -> bool)
    requires i < |s|
    ensures Count(s[i := x], p) == Count(s, p) - (if p(s[i]) then 1 else 0) + (if p(x) then 1 else 0)
    decreases |s|
  {
    var s' := s[i := x];
    var init, init' := s[..|s| - 1], s'[..|s'| - 1];
    assert Count(s, p) == Count(init, p) + (if p(s[|s| - 1]) then 1 else 0);
    assert Count(s', p) == Count(init', p) + (if p(s'[|s'| - 1]) then 1 else 0);
    if i == |s| - 1 {
      assert init' == init;
    } else {
      assert init' == init[i := x];
      CountUpdate(init, i, x, p);
    }
  }

  /**
   * The rows of `s` whose key is `id` passed through `f`, every other row kept
   * in its place: the tracked update of the row `FindAsync(id)` loads.
   */
  function ReplaceByKey<T>(s: seq<T>, key: T -> int, id: int, f: T -> T): (r: seq<T>)
    ensures |r| == |s|
    ensures forall i | 0 <= i < |s| :: r[i] == if key(s[i]) == id then f(s[i]) else s[i]
  {
    seq(|s|, i requires 0 <= i < |s| => if key(s[i]) == id then f(s[i]) else s[i])
  }

  /** With unique keys, replacing the row with key `id` rewrites that one position. */
  lemma ReplaceByKeyAt<T>(s: seq<T>, key: T -> int, id: int, f: T -> T, i: nat)
    requires DistinctBy(s, key) && i < |s| && key(s[i]) == id
    ensures ReplaceByKey(s, key, id, f) == s[i := f(s[i])]
  {
  }

  /** LINQ `FirstOrDefault(p)`, as the position of the first element satisfying `p`. */
  function FirstIndex<T>(s: seq<T>, p: T -> bool): (r: Option<nat>)
    ensures r.None? ==> forall i | 0 <= i < |s| :: !p(s[i])
    ensures r.Some? ==> r.value < |s| && p(s[r.value])
    ensures r.Some? ==> forall i | 0 <= i < r.value :: !p(s[i])
  {
    if s == [] then None
    else if p(s[0]) then Some(0)
    else
      match FirstIndex(s[1..], p)
      case None => None
      case Some(i) => Some(i + 1)
  }

  /** `s` without its element at position `p`: `List.Remove` of that row. */
  function RemoveAt<T>(s: seq<T>, p: nat): (r: seq<T>)
    requires p < |s|
    ensures |r| == |s| - 1
    ensures multiset(r) == multiset(s) - multiset{s[p]}
    ensures forall i | 0 <= i < |r| :: r[i] == if i < p then s[i] else s[i + 1]
  {
    MultisetRemoveAt(s, p);
    s[..p] + s[p + 1..]
  }

  /** LINQ `Take(n)`. */
  function Take<T>(s: seq<T>, n: nat): (r: seq<T>)
    ensures |r| == Min(n, |s|)
    ensures r == s[..|r|]
  {
    s[..Min(n, |s|)]
  }

  /** LINQ `Skip(n)`. */
  function Skip<T>(s: seq<T>, n: nat): (r: seq<T>)
    ensures |r| == Max(0, |s| - n)
    ensures n <= |s| ==> r == s[n..]
  {
    if n <= |s| then s[n..] else []
  }

  /** LINQ `Distinct` over an in-memory list: the first occurrence of each value, in order. */
  function Dedup<T(==, !new)>(s: seq<T>): (r: seq<T>)
    ensures forall x :: x in r <==> x in s
    ensures NoDuplicates(r)
    ensures |r| <= |s|
  {
    if s == [] then []
    else
      var init := s[..|s| - 1];
      var rest := Dedup(init);
      var x := s[|s| - 1];
      assert s == init + [x];
      if x in rest then rest else rest + [x]
  }

  /** Dropping one position keeps keys distinct. */
  lemma DistinctByRemove<T, K>(a: seq<T>, p: nat, key: T -> K)
    requires p < |a| && DistinctBy(a, key)
    ensures DistinctBy(a[..p] + a[p + 1..], key)
  {
    var a' := a[..p] + a[p + 1..];
    forall i, j | 0 <= i < j < |a'| ensures key(a'[i]) != key(a'[j]) {
      var i0 := if i < p then i else i + 1;
      var j0 := if j < p then j else j + 1;
      assert a'[i] == a[i0] && a'[j] == a[j0];
    }
  }

  /**
   * Whatever is drawn from a table whose keys are distinct (a sub-multiset of its
   * rows, in any order) has distinct keys too.
   */
  lemma {:induction false} DistinctBySubMultiset<T, K>(a: seq<T>, b: seq<T>, key: T -> K)
    requires multiset(b) <= multiset(a) && DistinctBy(a, key)
    ensures DistinctBy(b, key)
  {
    if b != [] {
      var x, rest := b[0], b[1..];
      assert b == [x] + rest;
      assert x in multiset(a);
      var p :| 0 <= p < |a| && a[p] == x;
      MultisetRemoveAt(a, p);
      assert multiset(rest) <= multiset(a[..p] + a[p + 1..]);
      DistinctByRemove(a, p, key);
      DistinctBySubMultiset(a[..p] + a[p + 1..], rest, key);
      forall j | 0 <= j < |rest| ensures key(x) != key(rest[j]) {
        KeyDiffersAfterRemove(a, p, rest, j, key);
      }
      DistinctByCons(x, rest, key);
    }
  }

  /** Putting in front a row whose key no row carries keeps keys distinct. */
  lemma DistinctByCons<T, K>(x: T, rest: seq<T>, key: T -> K)
    requires DistinctBy(rest, key)
    requires forall j | 0 <= j < |rest| :: key(x) != key(rest[j])
    ensures DistinctBy([x] + rest, key)
  {
    var b := [x] + rest;
    forall i, j | 0 <= i < j < |b| ensures key(b[i]) != key(b[j]) {
      assert b[j] == rest[j - 1];
      if i > 0 {
        assert b[i] == rest[i - 1];
      }
    }
  }

  lemma MultisetRemoveAt<T>(a: seq<T>, p: nat)
    requires p < |a|
    ensures multiset(a[..p] + a[p + 1..]) == multiset(a) - multiset{a[p]}
  {
    assert a == a[..p] + [a[p]] + a[p + 1..];
  }

  /** A row still in the table after removing position `p` has a key other than the removed row's. */
  lemma KeyDiffersAfterRemove<T, K>(a: seq<T>, p: nat, c: seq<T>, k: nat, key: T -> K)
    requires p < |a| && DistinctBy(a, key)
    requires k < |c| && multiset(c) <= multiset(a[..p] + a[p + 1..])
    ensures key(a[p]) != key(c[k])
  {
    var a' := a[..p] + a[p + 1..];
    assert c[k] in multiset(c);
    assert c[k] in multiset(a');
    var q :| 0 <= q < |a'| && a'[q] == c[k];
    if q < p {
      assert a'[q] == a[q];
    } else {
      assert a'[q] == a[q + 1];
    }
  }

  /** Appending a row whose key no row carries keeps keys distinct. */
  lemma DistinctByAppend<T, K>(a: seq<T>, x: T, key: T -> K)
    requires DistinctBy(a, key)
    requires forall i | 0 <= i < |a| :: key(a[i]) != key(x)
    ensures DistinctBy(a + [x], key)
  {
  }

  /** Replacing a row by one with the same key keeps keys distinct. */
  lemma DistinctByUpdate<T, K>(a: seq<T>, p: nat, x: T, key: T -> K)
    requires p < |a| && DistinctBy(a, key) && key(x) == key(a[p])
    ensures DistinctBy(a[p := x], key)
  {
  }

  /** Whatever a sub-multiset of `a` holds, `a` holds. */
  lemma SubMultisetMembers<T>(a: seq<T>, b: seq<T>)
    requires multiset(b) <= multiset(a)
    ensures forall x | x in b :: x in a
  {
    forall x | x in b ensures x in a {
      assert x in multiset(b);
    }
  }

  /** A sub-multiset as large as the multiset it is drawn from is all of it. */
  lemma SubMultisetOfSameSize<T>(a: seq<T>, b: seq<T>)
    requires multiset(b) <= multiset(a) && |b| == |a|
    ensures multiset(b) == multiset(a)
  {
    var d := multiset(a) - multiset(b);
    assert multiset(a) == multiset(b) + d;
    assert |multiset(a)| == |a| && |multiset(b)| == |b|;
    assert |d| == 0;
  }

  /**
   * In a table whose keys are distinct, removing the row at `p` removes exactly
   * the rows carrying its key and keeps every other key distinct.
   */
  lemma RemoveAtByKey<T, K>(s: seq<T>, p: nat, key: T -> K)
    requires p < |s| && DistinctBy(s, key)
    ensures forall x :: x in RemoveAt(s, p) <==> x in s && key(x) != key(s[p])
    ensures DistinctBy(RemoveAt(s, p), key)
  {
    var r := RemoveAt(s, p);
    DistinctByRemove(s, p, key);
    forall x ensures x in r <==> x in s && key(x) != key(s[p]) {
      if x in r {
        var i :| 0 <= i < |r| && r[i] == x;
        var k := if i < p then i else i + 1;
        assert s[k] == x && k != p;
      }
      if x in s && key(x) != key(s[p]) {
        var k :| 0 <= k < |s| && s[k] == x;
        assert k != p;
        var i := if k < p then k else k - 1;
        assert r[i] == x;
      }
    }
  }
}
