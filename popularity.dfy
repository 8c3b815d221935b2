/**
 * `GroupBy(wh => wh.ContentId).OrderByDescending(g => g.Count()).Take(k)`
 * over watch rows, each group joined with its title: the most watched titles,
 * shared by the dashboard's top content and the trending list.
 */
module Popularity {
  import opened Wrappers
  import opened Collections
  import opened Sorting
  import opened Grouping
  import opened Models

  /** The content identity of every watch row, in table order. */
  function WatchedIds(histories: seq<WatchHistory>): (r: seq<int>)
    ensures |r| == |histories|
    ensures forall i | 0 <= i < |histories| :: r[i] == histories[i].contentId
    ensures forall id :: id in r <==> exists w | w in histories :: w.contentId == id
  {
    var r := seq(|histories|, i requires 0 <= i < |histories| => histories[i].contentId);
    assert forall id :: id in r <==> exists w | w in histories :: w.contentId == id by {
      forall id | id in r ensures exists w | w in histories :: w.contentId == id {
        var i :| 0 <= i < |r| && r[i] == id;
        assert histories[i] in histories;
      }
      forall w | w in histories ensures w.contentId in r {
        var i :| 0 <= i < |histories| && histories[i] == w;
        assert r[i] == w.contentId;
      }
    }
    r
  }

  /** A title by identity, the first when identities repeat. */
  function FindContent(contents: seq<Content>, id: int): (r: Option<Content>)
    ensures r.None? <==> forall c | c in contents :: c.id != id
    ensures r.Some? ==> r.value in contents && r.value.id == id
    ensures r.Some? && DistinctBy(contents, ContentKey) ==> forall c | c in contents && c.id == id :: c == r.value
  {
    match FirstIndex(contents, (c: Content) => c.id == id)
    case None => None
    case Some(i) => Some(contents[i])
  }

  /**
   * One title with its number of watch rows. The title's row is missing only
   * for a watch row whose title is not in the table, which the foreign key
   * rules out.
   */
  datatype WatchedEntry = WatchedEntry(id: int, content: Option<Content>, watchCount: nat)

  /** A group of watch rows with its title (`g.First().Content`). */
  function Describe(contents: seq<Content>, g: Group<int>): (r: WatchedEntry)
    ensures r.id == g.key && r.watchCount == g.count
    ensures r.content.Some? <==> exists c | c in contents :: c.id == g.key
    ensures r.content.Some? ==> r.content.value in contents && r.content.value.id == g.key
    ensures DistinctBy(contents, ContentKey) ==> forall c | c in contents && c.id == g.key :: r.content == Some(c)
  {
    WatchedEntry(g.key, FindContent(contents, g.key), g.count)
  }

  function DescribeAll(contents: seq<Content>, groups: seq<Group<int>>): (r: seq<WatchedEntry>)
    ensures |r| == |groups|
    ensures forall i | 0 <= i < |groups| :: r[i] == Describe(contents, groups[i])
  {
    seq(|groups|, i requires 0 <= i < |groups| => Describe(contents, groups[i]))
  }

  /**
   * `r` lists the `k` most watched titles: at most `k` entries, one per title,
   * each with its exact number of watch rows and its title row when there is
   * one, most watched first; a watched title is left out only when `k` were
   * listed, each watched at least as often.
   */
  ghost predicate MostWatchedList(histories: seq<WatchHistory>, contents: seq<Content>, k: nat, r: seq<WatchedEntry>) {
    && |r| <= k
    && (forall i, j | 0 <= i < j < |r| :: r[i].id != r[j].id && r[i].watchCount >= r[j].watchCount)
    && (forall e | e in r :: e.id in WatchedIds(histories) && e.watchCount == multiset(WatchedIds(histories))[e.id])
    && (forall e | e in r :: e.content.Some? <==> exists c | c in contents :: c.id == e.id)
    && (DistinctBy(contents, ContentKey) ==>
         forall e, c | e in r && c in contents && c.id == e.id :: e.content == Some(c))
    && (forall w | w in histories && (forall e | e in r :: e.id != w.contentId) ::
         |r| == k && forall e | e in r :: multiset(WatchedIds(histories))[w.contentId] <= e.watchCount)
  }

  /** The `k` most watched titles. */
  function MostWatched(histories: seq<WatchHistory>, contents: seq<Content>, k: nat): (r: seq<WatchedEntry>)
    ensures MostWatchedList(histories, contents, k, r)
  {
    MostWatchedFacts(histories, contents, k);
    DescribeAll(contents, TopGroups(WatchedIds(histories), k))
  }

  lemma MostWatchedFacts(histories: seq<WatchHistory>, contents: seq<Content>, k: nat)
    ensures MostWatchedList(histories, contents, k, DescribeAll(contents, TopGroups(WatchedIds(histories), k)))
  {
    var ids := WatchedIds(histories);
    var groups := TopGroups(ids, k);
    var r := DescribeAll(contents, groups);
    TopRowsOrdered(contents, groups, r);
    TopRowsCounted(ids, contents, groups, r);
    TopRowsLeftOut(histories, ids, contents, groups, r, k);
  }

  /** Every listed title was watched at least once. */
  lemma ListedWereWatched(histories: seq<WatchHistory>, contents: seq<Content>, k: nat, r: seq<WatchedEntry>)
    requires MostWatchedList(histories, contents, k, r)
    ensures forall e | e in r :: e.watchCount > 0 && exists w | w in histories :: w.contentId == e.id
  {
    forall e | e in r ensures e.watchCount > 0 && exists w | w in histories :: w.contentId == e.id {
      assert e.id in multiset(WatchedIds(histories));
    }
  }

  lemma TopRowsOrdered(contents: seq<Content>, groups: seq<Group<int>>, r: seq<WatchedEntry>)
    requires DistinctBy(groups, GroupKey) && SortedBy(groups, ByCountDesc)
    requires r == DescribeAll(contents, groups)
    ensures forall i, j | 0 <= i < j < |r| :: r[i].id != r[j].id && r[i].watchCount >= r[j].watchCount
  {
  }

  lemma TopRowsCounted(ids: seq<int>, contents: seq<Content>, groups: seq<Group<int>>, r: seq<WatchedEntry>)
    requires forall g | g in groups :: g.key in ids && g.count == multiset(ids)[g.key]
    requires r == DescribeAll(contents, groups)
    ensures forall e | e in r :: e.id in ids && e.watchCount == multiset(ids)[e.id]
    ensures forall e | e in r :: e.content.Some? <==> exists c | c in contents :: c.id == e.id
    ensures DistinctBy(contents, ContentKey) ==>
      forall e, c | e in r && c in contents && c.id == e.id :: e.content == Some(c)
  {
    forall e | e in r ensures exists i :: 0 <= i < |groups| && e == Describe(contents, groups[i]) && groups[i] in groups {
      var i :| 0 <= i < |r| && r[i] == e;
    }
  }

  lemma TopRowsLeftOut(histories: seq<WatchHistory>, ids: seq<int>, contents: seq<Content>, groups: seq<Group<int>>, r: seq<WatchedEntry>, k: nat)
    requires ids == WatchedIds(histories)
    requires |groups| <= k && (|groups| < k ==> forall key | key in ids :: key in Keys(groups))
    requires forall key, g | key in ids && key !in Keys(groups) && g in groups :: multiset(ids)[key] <= g.count
    requires r == DescribeAll(contents, groups)
    ensures forall w | w in histories && (forall e | e in r :: e.id != w.contentId) ::
      |r| == k && forall e | e in r :: multiset(ids)[w.contentId] <= e.watchCount
  {
    forall w | w in histories && (forall e | e in r :: e.id != w.contentId)
      ensures |r| == k && forall e | e in r :: multiset(ids)[w.contentId] <= e.watchCount
    {
      var n :| 0 <= n < |histories| && histories[n] == w;
      assert ids[n] == w.contentId;
      assert w.contentId in ids;
      forall i | 0 <= i < |groups| ensures Keys(groups)[i] != w.contentId {
        assert r[i] in r;
      }
      assert w.contentId !in Keys(groups);
      assert |r| == k;
      forall e | e in r ensures multiset(ids)[w.contentId] <= e.watchCount {
        var i :| 0 <= i < |r| && r[i] == e;
        assert groups[i] in groups;
      }
    }
  }
}
