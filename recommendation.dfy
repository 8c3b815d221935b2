/**
 * The recommendation endpoints. Recommendations take the caller's watch rows,
 * rank the genres of the watched titles and keep the three most frequent;
 * they then list the best-rated active titles of those genres the caller has
 * not watched, and, when fewer than `limit` were found, append the best-rated
 * other unwatched active titles. Trending ranks titles by watch rows of the
 * last 30 days, and similar titles share the genre or the type of a reference
 * title.
 */
module RecommendationApi {
  import opened Wrappers
  import opened Collections
  import opened Sorting
  import opened Grouping
  import opened Models
  import opened Popularity
  import WatchHistoryApi

  /** The number of preferred genres kept. */
  const PreferredGenreCap := 3

  /** The trending window: 30 days, in seconds. */
  const TrendingWindow := 30 * 24 * 60 * 60

  /** The caller's watch rows, of `profileId` when one is given. */
  function CallerHistory(profiles: seq<Profile>, histories: seq<WatchHistory>, userId: int, profileId: Option<int>)
    : (r: seq<WatchHistory>)
    ensures forall w :: w in r <==> w in histories && WatchHistoryApi.Visible(profiles, userId, profileId, w)
  {
    Filter(histories, w => WatchHistoryApi.Visible(profiles, userId, profileId, w))
  }

  /** The genre of title `id` (`wh.Content.Genre`). */
  function GenreOf(contents: seq<Content>, id: int): Option<string> {
    match FindContent(contents, id)
    case None => None
    case Some(c) => c.genre
  }

  /** The non-empty genre of the title of each watch row that has one, one entry per row. */
  function WatchedGenres(contents: seq<Content>, rows: seq<WatchHistory>): (r: seq<string>)
    ensures forall g :: g in r <==> g != "" && exists w | w in rows :: GenreOf(contents, w.contentId) == Some(g)
    decreases |rows|
  {
    if rows == [] then []
    else
      var init, last := rows[..|rows| - 1], rows[|rows| - 1];
      assert rows == init + [last];
      var g := GenreOf(contents, last.contentId);
      WatchedGenres(contents, init) + (if g.Some? && g.value != "" then [g.value] else [])
  }

  /**
   * `r` is a choice of preferred genres among the watched `genres`: at most 3
   * distinct watched genres, most watched first; a watched genre is left out
   * only when 3 were kept, each watched at least as often.
   */
  ghost predicate PreferredAmong(genres: seq<string>, r: seq<string>) {
    && |r| <= PreferredGenreCap
    && (forall i, j | 0 <= i < j < |r| :: r[i] != r[j])
    && (forall g | g in r :: g in genres)
    && (forall i, j | 0 <= i < j < |r| :: multiset(genres)[r[i]] >= multiset(genres)[r[j]])
    && (forall g | g in genres && g !in r :: |r| == PreferredGenreCap && forall h | h in r :: multiset(genres)[g] <= multiset(genres)[h])
  }

  /** The caller's preferred genres, chosen among the genres of the titles in the caller's rows. */
  function PreferredGenres(contents: seq<Content>, rows: seq<WatchHistory>): (r: seq<string>)
    ensures PreferredAmong(WatchedGenres(contents, rows), r)
  {
    var genres := WatchedGenres(contents, rows);
    var groups := TopGroups(genres, PreferredGenreCap);
    PreferredGenresFacts(genres, groups);
    Keys(groups)
  }

  lemma PreferredGenresFacts(genres: seq<string>, groups: seq<Group<string>>)
    requires |groups| <= PreferredGenreCap
    requires |groups| < PreferredGenreCap ==> forall key | key in genres :: key in Keys(groups)
    requires SortedBy(groups, ByCountDesc) && DistinctBy(groups, GroupKey)
    requires forall g | g in groups :: g.key in genres && g.count == multiset(genres)[g.key]
    requires forall key, g | key in genres && key !in Keys(groups) && g in groups :: multiset(genres)[key] <= g.count
    ensures PreferredAmong(genres, Keys(groups))
  {
    var r := Keys(groups);
    assert forall i | 0 <= i < |groups| :: groups[i] in groups;
    forall g | g in genres && g !in r
      ensures |r| == PreferredGenreCap && forall h | h in r :: multiset(genres)[g] <= multiset(genres)[h]
    {
      forall h | h in r ensures multiset(genres)[g] <= multiset(genres)[h] {
        var i :| 0 <= i < |r| && r[i] == h;
        assert groups[i] in groups;
      }
    }
  }

  /** The identities of a list of titles (`recommendations.Select(r => r.Id)`). */
  function ContentIds(cs: seq<Content>): (r: seq<int>)
    ensures |r| == |cs|
    ensures forall i | 0 <= i < |cs| :: r[i] == cs[i].id
  {
    seq(|cs|, i requires 0 <= i < |cs| => cs[i].id)
  }

  /** A title the genre phase may recommend. */
  predicate GenreCandidate(preferred: seq<string>, watched: seq<int>, c: Content) {
    && c.isActive && c.id !in watched
    && |preferred| > 0 && c.genre.Some? && c.genre.value in preferred
  }

  /**
   * The genre phase: at most `limit` unwatched active titles of a preferred
   * genre, best rated first, nothing when there is no preferred genre; a
   * candidate is left out only when `limit` were taken, each ranked no lower.
   */
  function GenrePhase(contents: seq<Content>, preferred: seq<string>, watched: seq<int>, limit: nat): (r: seq<Content>)
    ensures |r| <= limit
    ensures multiset(r) <= multiset(contents)
    ensures forall c | c in r :: c in contents && GenreCandidate(preferred, watched, c)
    ensures SortedBy(r, Outranks)
    ensures preferred == [] ==> r == []
    ensures forall c | c in contents && GenreCandidate(preferred, watched, c) && c !in r ::
      |r| == limit && forall d | d in r :: Outranks(d, c)
  {
    OutranksIsTotalPreorder();
    var candidates := Filter(contents, c => GenreCandidate(preferred, watched, c));
    assert preferred == [] ==> candidates == [] by {
      if candidates != [] {
        assert candidates[0] in candidates;
      }
    }
    TopK(candidates, Outranks, limit)
  }

  /** A title the backfill may add. */
  predicate PopularCandidate(watched: seq<int>, chosen: seq<Content>, c: Content) {
    c.isActive && c.id !in watched && c.id !in ContentIds(chosen)
  }

  /**
   * The backfill: at most `n` unwatched active titles not already chosen,
   * best rated first; a candidate is left out only when `n` were taken, each
   * ranked no lower.
   */
  function Backfill(contents: seq<Content>, watched: seq<int>, chosen: seq<Content>, n: nat): (r: seq<Content>)
    ensures |r| <= n
    ensures multiset(r) <= multiset(contents)
    ensures forall c | c in r :: c in contents && PopularCandidate(watched, chosen, c)
    ensures SortedBy(r, Outranks)
    ensures forall c | c in contents && PopularCandidate(watched, chosen, c) && c !in r ::
      |r| == n && forall d | d in r :: Outranks(d, c)
  {
    OutranksIsTotalPreorder();
    TopK(Filter(contents, c => PopularCandidate(watched, chosen, c)), Outranks, n)
  }

  /** The recommendation list: the genre phase, then the backfill when it found fewer than `limit`. */
  function Recommend(contents: seq<Content>, preferred: seq<string>, watched: seq<int>, limit: nat): seq<Content> {
    var first := GenrePhase(contents, preferred, watched, limit);
    if |first| < limit then first + Backfill(contents, watched, first, limit - |first|) else first
  }

  /**
   * At most `limit` titles, every one active, unwatched and from the table,
   * no title twice when the table's identities are unique; and an unwatched
   * active title is left out only when the list is full.
   */
  lemma RecommendFacts(contents: seq<Content>, preferred: seq<string>, watched: seq<int>, limit: nat)
    ensures var r := Recommend(contents, preferred, watched, limit);
      && |r| <= limit
      && (forall c | c in r :: c in contents && c.isActive && c.id !in watched)
      && (DistinctBy(contents, ContentKey) ==> DistinctBy(r, ContentKey))
      && (DistinctBy(contents, ContentKey) ==>
            forall c | c in contents && c.isActive && c.id !in watched && c !in r :: |r| == limit)
  {
    var first := GenrePhase(contents, preferred, watched, limit);
    if |first| < limit {
      var popular := Backfill(contents, watched, first, limit - |first|);
      assert Recommend(contents, preferred, watched, limit) == first + popular;
      RecommendMembers(contents, watched, first, popular);
      RecommendDistinct(contents, first, popular);
      RecommendFull(contents, watched, first, popular, limit);
    } else {
      if DistinctBy(contents, ContentKey) {
        DistinctBySubMultiset(contents, first, ContentKey);
      }
    }
  }

  lemma RecommendMembers(contents: seq<Content>, watched: seq<int>, first: seq<Content>, popular: seq<Content>)
    requires forall c | c in first :: c in contents && c.isActive && c.id !in watched
    requires forall c | c in popular :: c in contents && c.isActive && c.id !in watched
    ensures forall c | c in first + popular :: c in contents && c.isActive && c.id !in watched
  {
  }

  lemma RecommendDistinct(contents: seq<Content>, first: seq<Content>, popular: seq<Content>)
    requires multiset(first) <= multiset(contents) && multiset(popular) <= multiset(contents)
    requires forall c | c in popular :: c.id !in ContentIds(first)
    ensures DistinctBy(contents, ContentKey) ==> DistinctBy(first + popular, ContentKey)
  {
    if DistinctBy(contents, ContentKey) {
      DistinctBySubMultiset(contents, first, ContentKey);
      DistinctBySubMultiset(contents, popular, ContentKey);
      DistinctAfterChosen(first, popular);
    }
  }

  lemma RecommendFull(contents: seq<Content>, watched: seq<int>, first: seq<Content>, popular: seq<Content>, limit: nat)
    requires |first| < limit
    requires forall c | c in first :: c in contents
    requires forall c | c in contents && PopularCandidate(watched, first, c) && c !in popular :: |popular| == limit - |first|
    ensures DistinctBy(contents, ContentKey) ==>
      forall c | c in contents && c.isActive && c.id !in watched && c !in first + popular :: |first + popular| == limit
  {
    if DistinctBy(contents, ContentKey) {
      forall c | c in contents && c.isActive && c.id !in watched && c !in first + popular
        ensures |first + popular| == limit
      {
        assert c.id !in ContentIds(first) by {
          forall i | 0 <= i < |first| ensures ContentIds(first)[i] != c.id {
            assert first[i] in first;
            var j :| 0 <= j < |contents| && contents[j] == first[i];
            var k :| 0 <= k < |contents| && contents[k] == c;
            assert j != k;
            assert ContentKey(contents[j]) != ContentKey(contents[k]);
          }
        }
        assert PopularCandidate(watched, first, c);
      }
    }
  }

  /** Appending titles whose identities were not chosen yet keeps identities unique. */
  lemma DistinctAfterChosen(first: seq<Content>, popular: seq<Content>)
    requires DistinctBy(first, ContentKey) && DistinctBy(popular, ContentKey)
    requires forall c | c in popular :: c.id !in ContentIds(first)
    ensures DistinctBy(first + popular, ContentKey)
  {
    var r := first + popular;
    forall i, j | 0 <= i < j < |r| ensures ContentKey(r[i]) != ContentKey(r[j]) {
      if i < |first| && j >= |first| {
        assert r[j] == popular[j - |first|] && r[j] in popular;
        assert ContentIds(first)[i] == r[i].id;
      }
    }
  }

  datatype Recommendations = Recommendations(recommendations: seq<Content>, preferredGenres: seq<string>, totalRecommendations: nat)

  /** The caller has a visible watch row for title `id`. */
  predicate WatchedByCaller(profiles: seq<Profile>, histories: seq<WatchHistory>, userId: int, profileId: Option<int>, id: int) {
    exists w | w in histories && WatchHistoryApi.Visible(profiles, userId, profileId, w) :: w.contentId == id
  }

  /**
   * GET api/recommendation: the caller's preferred genres, and the
   * recommendation list built from them and the titles the caller has
   * watched: at most `limit` titles, each active, from the table and watched
   * in none of the caller's visible rows; no title twice when identities are
   * unique, and then an active title the caller has not watched is left out
   * only when the list is full. The total is the list's length.
   */
  function GetRecommendations(
    profiles: seq<Profile>, histories: seq<WatchHistory>, contents: seq<Content>,
    userId: int, profileId: Option<int>, limit: nat)
    : (r: Recommendations)
    ensures var rows := CallerHistory(profiles, histories, userId, profileId);
      && r.preferredGenres == PreferredGenres(contents, rows)
      && r.recommendations == Recommend(contents, r.preferredGenres, WatchedIds(rows), limit)
    ensures r.totalRecommendations == |r.recommendations|
    ensures |r.recommendations| <= limit
    ensures forall c | c in r.recommendations :: c in contents && c.isActive
    ensures forall c | c in r.recommendations :: !WatchedByCaller(profiles, histories, userId, profileId, c.id)
    ensures DistinctBy(contents, ContentKey) ==> DistinctBy(r.recommendations, ContentKey)
    ensures DistinctBy(contents, ContentKey) ==>
      forall c | c in contents && c.isActive && !WatchedByCaller(profiles, histories, userId, profileId, c.id) && c !in r.recommendations ::
        |r.recommendations| == limit
  {
    var rows := CallerHistory(profiles, histories, userId, profileId);
    var preferred := PreferredGenres(contents, rows);
    var recommendations := Recommend(contents, preferred, WatchedIds(rows), limit);
    RecommendFacts(contents, preferred, WatchedIds(rows), limit);
    CallerWatchedIds(profiles, histories, userId, profileId);
    Recommendations(recommendations, preferred, |recommendations|)
  }

  /** A title's identity is among the caller's watched identities exactly when the caller has a visible row for it. */
  lemma CallerWatchedIds(profiles: seq<Profile>, histories: seq<WatchHistory>, userId: int, profileId: Option<int>)
    ensures forall id ::
      id in WatchedIds(CallerHistory(profiles, histories, userId, profileId)) <==> WatchedByCaller(profiles, histories, userId, profileId, id)
  {
    var rows := CallerHistory(profiles, histories, userId, profileId);
    forall id ensures id in WatchedIds(rows) <==> WatchedByCaller(profiles, histories, userId, profileId, id) {
      if WatchedByCaller(profiles, histories, userId, profileId, id) {
        var w :| w in histories && WatchHistoryApi.Visible(profiles, userId, profileId, w) && w.contentId == id;
        assert w in rows;
      }
    }
  }

  /** The watch rows of the last 30 days before `now`. */
  function RecentWatches(histories: seq<WatchHistory>, now: int): (r: seq<WatchHistory>)
    ensures forall w :: w in r <==> w in histories && w.watchedAt >= now - TrendingWindow
  {
    Filter(histories, (w: WatchHistory) => w.watchedAt >= now - TrendingWindow)
  }

  /**
   * GET api/recommendation/trending: the `limit` titles most watched in the
   * last 30 days, one entry each with its number of such rows, most watched
   * first; titles are not filtered by their active flag.
   */
  function GetTrending(histories: seq<WatchHistory>, contents: seq<Content>, now: int, limit: nat): (r: seq<WatchedEntry>)
    ensures MostWatchedList(RecentWatches(histories, now), contents, limit, r)
    ensures forall e | e in r :: exists w | w in histories :: w.contentId == e.id && w.watchedAt >= now - TrendingWindow
  {
    var recent := RecentWatches(histories, now);
    ListedWereWatched(recent, contents, limit, MostWatched(recent, contents, limit));
    MostWatched(recent, contents, limit)
  }

  /** `c` is similar to `reference`: active, another title, and of the same genre or the same type. */
  predicate SimilarTo(reference: Content, c: Content) {
    c.isActive && c.id != reference.id && (c.genre == reference.genre || c.contentType == reference.contentType)
  }

  /**
   * GET api/recommendation/similar/{contentId}: NotFound when no title has
   * that identity (active or not); otherwise at most `limit` titles similar
   * to it, best rated first; a similar title is left out only when `limit`
   * were taken, each ranked no lower.
   */
  function GetSimilarContent(contents: seq<Content>, contentId: int, limit: nat): (r: Response<seq<Content>>)
    ensures r.Ok? || r == NotFound("Content not found.")
    ensures r.Ok? <==> exists c | c in contents :: c.id == contentId
    ensures r.Ok? ==>
      var reference := FindContent(contents, contentId).value;
      && |r.value| <= limit
      && multiset(r.value) <= multiset(contents)
      && (forall c | c in r.value :: c in contents && SimilarTo(reference, c) && c.id != contentId)
      && SortedBy(r.value, Outranks)
      && (forall c | c in contents && SimilarTo(reference, c) && c !in r.value ::
            |r.value| == limit && forall d | d in r.value :: Outranks(d, c))
  {
    match FindContent(contents, contentId)
    case None => NotFound("Content not found.")
    case Some(reference) =>
      OutranksIsTotalPreorder();
      Ok(TopK(Filter(contents, c => SimilarTo(reference, c)), Outranks, limit))
  }
}
