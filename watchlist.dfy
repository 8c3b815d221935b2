/**
 * The watchlist endpoints: a profile's saved titles, at most one row per
 * (profile, content) pair, listed newest first, removed by row id or by title,
 * and the "is this title saved" check. Every endpoint is scoped to the profiles
 * of the calling user.
 */
module WatchlistApi {
  import opened Wrappers
  import opened Collections
  import opened Sorting
  import opened Models
  import opened Database

  /** A row the caller may see: on one of their profiles, and on `profileId` when one is given. */
  predicate Listed(profiles: seq<Profile>, userId: int, profileId: Option<int>, w: Watchlist) {
    OwnsProfile(profiles, userId, w.profileId) && (profileId.None? || w.profileId == profileId.value)
  }

  /** A caller's row for title `contentId` (on `profileId` when one is given). */
  predicate Matches(profiles: seq<Profile>, userId: int, contentId: int, profileId: Option<int>, w: Watchlist) {
    w.contentId == contentId && Listed(profiles, userId, profileId, w)
  }

  /** `OrderByDescending(w => w.AddedAt)`. */
  predicate ByAddedAtDesc(a: Watchlist, b: Watchlist) {
    a.addedAt >= b.addedAt
  }

  lemma ByAddedAtDescIsTotalPreorder()
    ensures TotalPreorder(ByAddedAtDesc)
  {
  }

  /** GET api/watchlist: exactly the caller's rows (of one profile, if given), newest first. */
  function GetWatchlist(profiles: seq<Profile>, watchlists: seq<Watchlist>, userId: int, profileId: Option<int>)
    : (r: seq<Watchlist>)
    ensures forall w :: multiset(r)[w] == if Listed(profiles, userId, profileId, w) then multiset(watchlists)[w] else 0
    ensures SortedBy(r, ByAddedAtDesc)
  {
    ByAddedAtDescIsTotalPreorder();
    Sort(Filter(watchlists, w => Listed(profiles, userId, profileId, w)), ByAddedAtDesc)
  }

  /** Some row of `ws` pairs `profileId` with `contentId`. */
  predicate HasPair(ws: seq<Watchlist>, profileId: int, contentId: int) {
    exists i | 0 <= i < |ws| :: WatchlistPair(ws[i]) == (profileId, contentId)
  }

  /** Every row references a stored title: the `ContentId` foreign key holds across the table. */
  ghost predicate ContentsReferenced(contents: seq<Content>, ws: seq<Watchlist>) {
    forall w | w in ws :: HasContent(contents, w.contentId)
  }

  /**
   * POST api/watchlist: NotFound unless the profile is the caller's, BadRequest
   * when the pair is already saved, ServerError when no title has the identity
   * (the foreign key fails on save), each with no change; otherwise exactly one
   * row for the pair, stamped `now`, is appended and its new identity returned.
   */
  method AddToWatchlist(db: Store, userId: int, profileId: int, contentId: int, now: int) returns (r: Response<int>)
    requires db.WatchlistTableValid()
    modifies db`watchlists, db`nextWatchlistId
    ensures db.WatchlistTableValid()
    ensures !OwnsProfile(db.profiles, userId, profileId) ==>
      r == NotFound("Profile not found.") && db.watchlists == old(db.watchlists)
    ensures OwnsProfile(db.profiles, userId, profileId) && HasPair(old(db.watchlists), profileId, contentId) ==>
      r == BadRequest("Content already in watchlist.") && db.watchlists == old(db.watchlists)
    ensures OwnsProfile(db.profiles, userId, profileId) && !HasPair(old(db.watchlists), profileId, contentId)
              && !HasContent(db.contents, contentId) ==>
      r == ServerError && db.watchlists == old(db.watchlists)
    ensures OwnsProfile(db.profiles, userId, profileId) && !HasPair(old(db.watchlists), profileId, contentId)
              && HasContent(db.contents, contentId) ==>
      && r == Ok(old(db.nextWatchlistId))
      && db.watchlists == old(db.watchlists) + [Watchlist(old(db.nextWatchlistId), profileId, contentId, now)]
    ensures ContentsReferenced(db.contents, old(db.watchlists)) ==> ContentsReferenced(db.contents, db.watchlists)
  {
    if !OwnsProfile(db.profiles, userId, profileId) {
      return NotFound("Profile not found.");
    }
    var ws := db.watchlists;
    if exists i | 0 <= i < |ws| :: WatchlistPair(ws[i]) == (profileId, contentId) {
      return BadRequest("Content already in watchlist.");
    }
    if !HasContent(db.contents, contentId) {
      return ServerError;
    }
    var row := Watchlist(db.nextWatchlistId, profileId, contentId, now);
    DistinctByAppend(ws, row, WatchlistKey);
    DistinctByAppend(ws, row, WatchlistPair);
    db.watchlists := ws + [row];
    db.nextWatchlistId := db.nextWatchlistId + 1;
    return Ok(row.id);
  }

  /** A row the caller may remove by id: it has identity `id` and sits on one of the caller's profiles. */
  predicate Removable(profiles: seq<Profile>, userId: int, id: int, w: Watchlist) {
    w.id == id && OwnsProfile(profiles, userId, w.profileId)
  }

  /**
   * DELETE api/watchlist/{id}: removes exactly the row with that identity when
   * it is the caller's; NotFound with no change otherwise.
   */
  method RemoveFromWatchlist(db: Store, userId: int, id: int) returns (r: Response<string>)
    requires db.WatchlistTableValid()
    modifies db`watchlists
    ensures db.WatchlistTableValid()
    ensures (exists w | w in old(db.watchlists) :: Removable(db.profiles, userId, id, w)) ==>
      && r == Ok("Removed from watchlist successfully.")
      && |db.watchlists| == |old(db.watchlists)| - 1
      && forall w :: w in db.watchlists <==> w in old(db.watchlists) && w.id != id
    ensures (forall w | w in old(db.watchlists) :: !Removable(db.profiles, userId, id, w)) ==>
      r == NotFound("Watchlist item not found.") && db.watchlists == old(db.watchlists)
  {
    var ws, profiles := db.watchlists, db.profiles;
    var found := FirstIndex(ws, w => Removable(profiles, userId, id, w));
    if found.None? {
      assert forall w | w in ws :: !Removable(profiles, userId, id, w);
      return NotFound("Watchlist item not found.");
    }
    var i := found.value;
    RemoveAtByKey(ws, i, WatchlistKey);
    RemoveAtByKey(ws, i, WatchlistPair);
    db.watchlists := RemoveAt(ws, i);
    return Ok("Removed from watchlist successfully.");
  }

  /**
   * The table after removing a title from the caller's watchlist: every
   * matching row goes, every other row stays, in its original order.
   */
  function WithoutMatches(profiles: seq<Profile>, ws: seq<Watchlist>, userId: int, contentId: int, profileId: Option<int>)
    : (r: seq<Watchlist>)
    ensures forall w :: multiset(r)[w] == if Matches(profiles, userId, contentId, profileId, w) then 0 else multiset(ws)[w]
    ensures Subsequence(r, ws)
    ensures forall w | w in r :: !Matches(profiles, userId, contentId, profileId, w)
  {
    Filter(ws, w => !Matches(profiles, userId, contentId, profileId, w))
  }

  /** GET api/watchlist/check/{contentId}: whether the caller has saved the title. */
  function CheckInWatchlist(profiles: seq<Profile>, ws: seq<Watchlist>, userId: int, contentId: int, profileId: Option<int>)
    : (r: bool)
    ensures r <==> exists w | w in ws :: Matches(profiles, userId, contentId, profileId, w)
  {
    exists i | 0 <= i < |ws| :: Matches(profiles, userId, contentId, profileId, ws[i])
  }

  /**
   * DELETE api/watchlist/content/{contentId}: NotFound with no change when the
   * caller has no matching row; otherwise all matching rows are removed, and the
   * title then checks as not saved.
   */
  method RemoveContentFromWatchlist(db: Store, userId: int, contentId: int, profileId: Option<int>) returns (r: Response<string>)
    requires db.WatchlistTableValid()
    modifies db`watchlists
    ensures db.WatchlistTableValid()
    ensures !CheckInWatchlist(old(db.profiles), old(db.watchlists), userId, contentId, profileId) ==>
      r == NotFound("Content not found in watchlist.") && db.watchlists == old(db.watchlists)
    ensures CheckInWatchlist(old(db.profiles), old(db.watchlists), userId, contentId, profileId) ==>
      && r == Ok("Removed from watchlist successfully.")
      && db.watchlists == WithoutMatches(db.profiles, old(db.watchlists), userId, contentId, profileId)
    ensures !CheckInWatchlist(db.profiles, db.watchlists, userId, contentId, profileId)
  {
    var ws, profiles := db.watchlists, db.profiles;
    if !CheckInWatchlist(profiles, ws, userId, contentId, profileId) {
      return NotFound("Content not found in watchlist.");
    }
    var kept := WithoutMatches(profiles, ws, userId, contentId, profileId);
    WithoutMatchesKeepsKeys(profiles, ws, userId, contentId, profileId, db.nextWatchlistId);
    db.watchlists := kept;
    return Ok("Removed from watchlist successfully.");
  }

  /** Removing rows keeps identities and pairs distinct and below the identity counter. */
  lemma WithoutMatchesKeepsKeys(profiles: seq<Profile>, ws: seq<Watchlist>, userId: int, contentId: int, profileId: Option<int>, next: int)
    requires DistinctBy(ws, WatchlistKey) && DistinctBy(ws, WatchlistPair)
    requires forall w | w in ws :: w.id < next
    ensures var kept := WithoutMatches(profiles, ws, userId, contentId, profileId);
      DistinctBy(kept, WatchlistKey) && DistinctBy(kept, WatchlistPair) && forall w | w in kept :: w.id < next
  {
    var kept := WithoutMatches(profiles, ws, userId, contentId, profileId);
    assert multiset(kept) <= multiset(ws);
    DistinctBySubMultiset(ws, kept, WatchlistKey);
    DistinctBySubMultiset(ws, kept, WatchlistPair);
    forall w | w in kept ensures w.id < next {
      assert w in multiset(kept);
      assert w in ws;
    }
  }

  /** A successful add makes the title check as saved on that profile, and on the caller's list as a whole. */
  lemma CheckAfterAdd(profiles: seq<Profile>, ws: seq<Watchlist>, userId: int, profileId: int, contentId: int, id: int, now: int)
    requires OwnsProfile(profiles, userId, profileId)
    ensures CheckInWatchlist(profiles, ws + [Watchlist(id, profileId, contentId, now)], userId, contentId, Some(profileId))
    ensures CheckInWatchlist(profiles, ws + [Watchlist(id, profileId, contentId, now)], userId, contentId, None)
  {
    var row := Watchlist(id, profileId, contentId, now);
    assert row in ws + [row];
  }

  /** Removing a title leaves the caller's other titles checking as before. */
  lemma CheckOthersAfterRemove(profiles: seq<Profile>, ws: seq<Watchlist>, userId: int, contentId: int, profileId: Option<int>, other: int)
    requires other != contentId
    ensures CheckInWatchlist(profiles, WithoutMatches(profiles, ws, userId, contentId, profileId), userId, other, profileId)
      == CheckInWatchlist(profiles, ws, userId, other, profileId)
  {
    var kept := WithoutMatches(profiles, ws, userId, contentId, profileId);
    if CheckInWatchlist(profiles, ws, userId, other, profileId) {
      var w :| w in ws && Matches(profiles, userId, other, profileId, w);
      assert multiset(kept)[w] == multiset(ws)[w];
      assert w in multiset(ws);
      assert w in kept;
    }
    if CheckInWatchlist(profiles, kept, userId, other, profileId) {
      var w :| w in kept && Matches(profiles, userId, other, profileId, w);
      assert w in multiset(kept);
      assert w in ws;
    }
  }
}
