/**
 * `GroupBy(key).Select(g => (g.Key, g.Count()))` and the orderings the
 * controllers put on the groups: by count descending (trending, top content,
 * preferred genres, content by genre) or by key ascending (per-day analytics).
 */
module Grouping {
  import opened Collections
  import opened Sorting

  /** One group: its key and the number of rows that carry it. */
  datatype Group<K> = Group(key: K, count: nat)

  function GroupKey<K>(g: Group<K>): K {
    g.key
  }

  function Keys<K>(gs: seq<Group<K>>): (r: seq<K>)
    ensures |r| == |gs|
    ensures forall i | 0 <= i < |gs| :: r[i] == gs[i].key
  {
    seq(|gs|, i requires 0 <= i < |gs| => gs[i].key)
  }

  /**
   * `r` groups `keys`: one group per distinct key and none for a key that
   * does not occur, each counting the rows that carry its key.
   */
  ghost predicate CountsPerKey<K(!new)>(keys: seq<K>, r: seq<Group<K>>) {
    && (forall k :: k in Keys(r) <==> k in keys)
    && (forall g | g in r :: g.count == multiset(keys)[g.key] && g.count > 0)
    && DistinctBy(r, GroupKey)
  }

  /** One group per distinct key, each counting the rows that carry its key. */
  function GroupCount<K(==, !new)>(keys: seq<K>): (r: seq<Group<K>>)
    ensures CountsPerKey(keys, r)
  {
    var d := Dedup(keys);
    var r := seq(|d|, i requires 0 <= i < |d| => Group(d[i], multiset(keys)[d[i]]));
    var ks := Keys(r);
    assert ks == d by {
      assert |ks| == |d|;
      forall i | 0 <= i < |d| ensures ks[i] == d[i] {
        assert ks[i] == r[i].key;
      }
    }
    forall g | g in r ensures g.count == multiset(keys)[g.key] && g.count > 0 {
      var i :| 0 <= i < |r| && r[i] == g;
      assert d[i] in keys;
    }
    assert DistinctBy(r, GroupKey) by {
      forall i, j | 0 <= i < j < |r| ensures GroupKey(r[i]) != GroupKey(r[j]) {
        assert Self(d[i]) != Self(d[j]);
      }
    }
    r
  }

  /** `OrderByDescending(g => g.Count())`. */
  function ByCountDesc<K>(a: Group<K>, b: Group<K>): bool {
    a.count >= b.count
  }

  /** `OrderBy(x => x.Date)` over per-day groups. */
  function ByKeyAsc(a: Group<int>, b: Group<int>): bool {
    a.key <= b.key
  }

  lemma ByCountDescIsTotalPreorder<K(!new)>()
    ensures TotalPreorder(ByCountDesc<K>)
  {
  }

  lemma ByKeyAscIsTotalPreorder()
    ensures TotalPreorder(ByKeyAsc)
  {
  }

  /**
   * `GroupBy(key).OrderByDescending(g => g.Count()).Take(k)`: at most `k`
   * groups, non-increasing by count, one per key, each with its exact count;
   * a key left out has no more rows than any key that was taken, and keys are
   * only left out when `k` groups were taken.
   */
  function TopGroups<K(==, !new)>(keys: seq<K>, k: nat): (r: seq<Group<K>>)
    ensures |r| <= k
    ensures |r| < k ==> forall key | key in keys :: key in Keys(r)
    ensures SortedBy(r, ByCountDesc)
    ensures forall g | g in r :: g.key in keys && g.count == multiset(keys)[g.key]
    ensures DistinctBy(r, GroupKey)
    ensures forall key, g | key in keys && key !in Keys(r) && g in r :: multiset(keys)[key] <= g.count
  {
    var groups := GroupCount(keys);
    ByCountDescIsTotalPreorder<K>();
    var r := TopK(groups, ByCountDesc, k);
    TakenGroups(keys, groups, r, k);
    r
  }

  lemma TakenGroups<K>(keys: seq<K>, groups: seq<Group<K>>, r: seq<Group<K>>, k: nat)
    requires forall key :: key in Keys(groups) <==> key in keys
    requires DistinctBy(groups, GroupKey)
    requires multiset(r) <= multiset(groups) && |r| == Min(k, |groups|)
    requires forall x, y | x in groups && x !in r && y in r :: ByCountDesc(y, x)
    ensures DistinctBy(r, GroupKey)
    ensures forall g | g in r :: g in groups
    ensures |r| < k ==> forall key | key in keys :: key in Keys(r)
    ensures forall key, g | key in keys && key !in Keys(r) && g in r ::
      exists g0 :: g0 in groups && g0.key == key && g.count >= g0.count
  {
    DistinctBySubMultiset(groups, r, GroupKey);
    forall g | g in r ensures g in groups {
      assert g in multiset(r);
    }
    forall key, g | key in keys && key !in Keys(r) && g in r
      ensures exists g0 :: g0 in groups && g0.key == key && g.count >= g0.count
    {
      assert key in Keys(groups);
      var i :| 0 <= i < |groups| && Keys(groups)[i] == key;
      var g0 := groups[i];
      assert forall j | 0 <= j < |r| :: Keys(r)[j] == r[j].key;
      assert g0 !in r;
      assert ByCountDesc(g, g0);
    }
    if |r| < k {
      SubMultisetOfSameSize(groups, r);
      forall key | key in keys ensures key in Keys(r) {
        assert key in Keys(groups);
        var i :| 0 <= i < |groups| && Keys(groups)[i] == key;
        assert groups[i] in multiset(r);
        var j :| 0 <= j < |r| && r[j] == groups[i];
        assert Keys(r)[j] == key;
      }
    }
  }

  /**
   * `GroupBy(key).OrderByDescending(g => g.Count())` with no cap: every key
   * once, non-increasing by count.
   */
  function RankedGroups<K(==, !new)>(keys: seq<K>): (r: seq<Group<K>>)
    ensures CountsPerKey(keys, r)
    ensures SortedBy(r, ByCountDesc)
  {
    ByCountDescIsTotalPreorder<K>();
    SortedGroupsKeepKeys(keys, GroupCount(keys), Sort(GroupCount(keys), ByCountDesc));
    Sort(GroupCount(keys), ByCountDesc)
  }

  /**
   * `GroupBy(day).OrderBy(g => g.Key)`: one group per day, days strictly
   * increasing.
   */
  function GroupsByDay(days: seq<int>): (r: seq<Group<int>>)
    ensures CountsPerKey(days, r)
    ensures forall i, j | 0 <= i < j < |r| :: r[i].key < r[j].key
  {
    ByKeyAscIsTotalPreorder();
    var r := Sort(GroupCount(days), ByKeyAsc);
    SortedGroupsKeepKeys(days, GroupCount(days), r);
    assert forall i, j | 0 <= i < j < |r| :: r[i].key <= r[j].key && GroupKey(r[i]) != GroupKey(r[j]);
    r
  }

  /** Reordering groups keeps their keys, their counts and their distinctness. */
  lemma SortedGroupsKeepKeys<K(!new)>(keys: seq<K>, groups: seq<Group<K>>, r: seq<Group<K>>)
    requires multiset(r) == multiset(groups) && CountsPerKey(keys, groups)
    ensures CountsPerKey(keys, r)
  {
    DistinctBySubMultiset(groups, r, GroupKey);
    forall g ensures g in r <==> g in groups {
      assert g in r <==> g in multiset(r);
      assert g in groups <==> g in multiset(groups);
    }
    forall k ensures k in Keys(r) <==> k in Keys(groups) {
      if k in Keys(r) {
        var i :| 0 <= i < |r| && Keys(r)[i] == k;
        assert r[i] in groups;
        var j :| 0 <= j < |groups| && groups[j] == r[i];
        assert Keys(groups)[j] == k;
      }
      if k in Keys(groups) {
        var i :| 0 <= i < |groups| && Keys(groups)[i] == k;
        assert groups[i] in r;
        var j :| 0 <= j < |r| && r[j] == groups[i];
        assert Keys(r)[j] == k;
      }
    }
  }
}
