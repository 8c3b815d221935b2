/**
 * The watch-history endpoints: a profile's progress per title (or per episode
 * of a title), upserted on the slot (profile, content, episode), listed newest
 * first, deleted by id, and the "continue watching" shelf of unfinished rows.
 * Every endpoint is scoped to the profiles of the calling user.
 */
module WatchHistoryApi {
  import opened Wrappers
  import opened Collections
  import opened Sorting
  import opened Models
  import opened Database

  datatype AddWatchHistoryRequest = AddWatchHistoryRequest(
    profileId: int,
    contentId: int,
    episodeId: Option<int>,
    progress: int,
    completed: bool)

  /** The number of rows the continue-watching shelf shows. */
  const ContinueWatchingCap := 20

  /** A row the caller may see: on one of their profiles, and on `profileId` when one is given. */
  predicate Visible(profiles: seq<Profile>, userId: int, profileId: Option<int>, w: WatchHistory) {
    OwnsProfile(profiles, userId, w.profileId) && (profileId.None? || w.profileId == profileId.value)
  }

  /** `OrderByDescending(wh => wh.WatchedAt)`. */
  predicate ByWatchedAtDesc(a: WatchHistory, b: WatchHistory) {
    a.watchedAt >= b.watchedAt
  }

  lemma ByWatchedAtDescIsTotalPreorder()
    ensures TotalPreorder(ByWatchedAtDesc)
  {
  }

  /** GET api/watchhistory: exactly the caller's rows (of one profile, if given), newest first. */
  function GetWatchHistory(profiles: seq<Profile>, histories: seq<WatchHistory>, userId: int, profileId: Option<int>)
    : (r: seq<WatchHistory>)
    ensures forall w :: multiset(r)[w] == if Visible(profiles, userId, profileId, w) then multiset(histories)[w] else 0
    ensures SortedBy(r, ByWatchedAtDesc)
  {
    ByWatchedAtDescIsTotalPreorder();
    Sort(Filter(histories, w => Visible(profiles, userId, profileId, w)), ByWatchedAtDesc)
  }

  /** The upsert key of a request. */
  function Slot(req: AddWatchHistoryRequest): (int, int, Option<int>) {
    (req.profileId, req.contentId, req.episodeId)
  }

  /** Some row of `h` sits on slot `key` (two missing episode ids compare equal). */
  predicate HasSlot(h: seq<WatchHistory>, key: (int, int, Option<int>)) {
    exists i | 0 <= i < |h| :: HistorySlot(h[i]) == key
  }

  /** An existing row after an upsert: new progress, completion and time, all else kept. */
  function Touched(w: WatchHistory, req: AddWatchHistoryRequest, now: int): WatchHistory {
    w.(progress := req.progress, completed := req.completed, watchedAt := now)
  }

  /** The row an upsert inserts when its slot is empty. */
  function NewRow(req: AddWatchHistoryRequest, now: int, id: int): WatchHistory {
    WatchHistory(id, req.profileId, req.contentId, req.episodeId, now, req.progress, req.completed)
  }

  /**
   * The table after recording `req` at time `now`: the row on the request's slot
   * gets the request's progress and completion and the time `now`, and no row is
   * added; when the slot is empty, one row with the request's fields and the
   * identity `freshId` is appended. Rows on other slots never change, and the
   * table keeps at most one row per slot.
   */
  function Upsert(h: seq<WatchHistory>, req: AddWatchHistoryRequest, now: int, freshId: int): (r: seq<WatchHistory>)
    ensures HasSlot(h, Slot(req)) ==> |r| == |h|
    ensures !HasSlot(h, Slot(req)) ==> r == h + [NewRow(req, now, freshId)]
    ensures forall i | 0 <= i < |h| && HistorySlot(h[i]) != Slot(req) :: r[i] == h[i]
    ensures forall i | 0 <= i < |h| :: r[i].id == h[i].id && HistorySlot(r[i]) == HistorySlot(h[i])
    ensures DistinctBy(h, HistorySlot) ==>
      forall i | 0 <= i < |h| && HistorySlot(h[i]) == Slot(req) :: r[i] == Touched(h[i], req, now)
    ensures DistinctBy(h, HistorySlot) ==> DistinctBy(r, HistorySlot)
    ensures HasSlot(r, Slot(req))
  {
    match FirstIndex(h, w => HistorySlot(w) == Slot(req))
    case Some(i) =>
      assert DistinctBy(h, HistorySlot) ==> DistinctBy(h[i := Touched(h[i], req, now)], HistorySlot) by {
        if DistinctBy(h, HistorySlot) {
          DistinctByUpdate(h, i, Touched(h[i], req, now), HistorySlot);
        }
      }
      assert HistorySlot(h[i := Touched(h[i], req, now)][i]) == Slot(req);
      h[i := Touched(h[i], req, now)]
    case None =>
      assert DistinctBy(h, HistorySlot) ==> DistinctBy(h + [NewRow(req, now, freshId)], HistorySlot) by {
        if DistinctBy(h, HistorySlot) {
          DistinctByAppend(h, NewRow(req, now, freshId), HistorySlot);
        }
      }
      var r := h + [NewRow(req, now, freshId)];
      assert HistorySlot(r[|h|]) == Slot(req);
      r
  }

  /** Recording the same request twice at the same time leaves the table as recording it once. */
  lemma UpsertIdempotent(h: seq<WatchHistory>, req: AddWatchHistoryRequest, now: int, id1: int, id2: int)
    ensures Upsert(Upsert(h, req, now, id1), req, now, id2) == Upsert(h, req, now, id1)
  {
    var r1 := Upsert(h, req, now, id1);
    var p := w => HistorySlot(w) == Slot(req);
    match FirstIndex(h, p)
    case Some(i) =>
      assert FirstIndex(r1, p) == Some(i) by {
        FirstIndexAfterUpdate(h, p, i, Touched(h[i], req, now));
      }
    case None =>
      assert FirstIndex(r1, p) == Some(|h|) by {
        FirstIndexAfterAppend(h, p, NewRow(req, now, id1));
      }
  }

  lemma FirstIndexAfterUpdate<T>(s: seq<T>, p: T -> bool, i: nat, x: T)
    requires FirstIndex(s, p) == Some(i) && p(x)
    ensures FirstIndex(s[i := x], p) == Some(i)
  {
    FirstIndexIsFirst(s[i := x], p, i);
  }

  lemma FirstIndexAfterAppend<T>(s: seq<T>, p: T -> bool, x: T)
    requires FirstIndex(s, p) == None && p(x)
    ensures FirstIndex(s + [x], p) == Some(|s|)
  {
    FirstIndexIsFirst(s + [x], p, |s|);
  }

  /** A position that matches, with no match before it, is the one `FirstIndex` finds. */
  lemma FirstIndexIsFirst<T>(s: seq<T>, p: T -> bool, i: nat)
    requires i < |s| && p(s[i]) && forall j | 0 <= j < i :: !p(s[j])
    ensures FirstIndex(s, p) == Some(i)
  {
    var f := FirstIndex(s, p);
    assert f.Some?;
    assert !(f.value < i) && !(f.value > i);
  }

  /**
   * The row an upsert of `req` would insert references a stored title and,
   * when it names one, a stored episode: the foreign keys the database checks
   * when `SaveChangesAsync` inserts it.
   */
  predicate ReferencesExist(contents: seq<Content>, req: AddWatchHistoryRequest) {
    HasContent(contents, req.contentId) && (req.episodeId.None? || HasEpisode(contents, req.episodeId.value))
  }

  /** Every row references a stored title: the `ContentId` foreign key holds across the table. */
  ghost predicate ContentsReferenced(contents: seq<Content>, h: seq<WatchHistory>) {
    forall w | w in h :: HasContent(contents, w.contentId)
  }

  /**
   * POST api/watchhistory: NotFound with no change unless the request's profile
   * is the caller's; ServerError with no change when the slot is empty and the
   * row to insert names a title or an episode that is not stored; otherwise the
   * upsert of `req` at time `now`, which keeps every row's title stored.
   */
  method AddWatchHistory(db: Store, userId: int, req: AddWatchHistoryRequest, now: int) returns (r: Response<string>)
    requires db.HistoryTableValid()
    modifies db`watchHistories, db`nextHistoryId
    ensures db.HistoryTableValid()
    ensures !OwnsProfile(db.profiles, userId, req.profileId) ==>
      r == NotFound("Profile not found.") && db.watchHistories == old(db.watchHistories)
    ensures OwnsProfile(db.profiles, userId, req.profileId) && !HasSlot(old(db.watchHistories), Slot(req))
              && !ReferencesExist(db.contents, req) ==>
      r == ServerError && db.watchHistories == old(db.watchHistories)
    ensures OwnsProfile(db.profiles, userId, req.profileId)
              && (HasSlot(old(db.watchHistories), Slot(req)) || ReferencesExist(db.contents, req)) ==>
      r == Ok("Watch history updated successfully.")
      && db.watchHistories == Upsert(old(db.watchHistories), req, now, old(db.nextHistoryId))
    ensures ContentsReferenced(db.contents, old(db.watchHistories)) ==> ContentsReferenced(db.contents, db.watchHistories)
  {
    if !OwnsProfile(db.profiles, userId, req.profileId) {
      return NotFound("Profile not found.");
    }
    var h := db.watchHistories;
    var found := FirstIndex(h, w => HistorySlot(w) == Slot(req));
    if found.Some? {
      var i := found.value;
      DistinctByUpdate(h, i, Touched(h[i], req, now), HistoryKey);
      db.watchHistories := h[i := Touched(h[i], req, now)];
      assert forall k | 0 <= k < |h| :: db.watchHistories[k].contentId == h[k].contentId;
      assert forall k | 0 <= k < |h| :: h[k] in h;
    } else {
      if !ReferencesExist(db.contents, req) {
        return ServerError;
      }
      var row := NewRow(req, now, db.nextHistoryId);
      DistinctByAppend(h, row, HistoryKey);
      db.watchHistories := h + [row];
      db.nextHistoryId := db.nextHistoryId + 1;
    }
    return Ok("Watch history updated successfully.");
  }

  /** A row the caller may delete: it has identity `id` and sits on one of the caller's profiles. */
  predicate Deletable(profiles: seq<Profile>, userId: int, id: int, w: WatchHistory) {
    w.id == id && OwnsProfile(profiles, userId, w.profileId)
  }

  /**
   * DELETE api/watchhistory/{id}: removes exactly the row with that identity
   * when it is the caller's; NotFound with no change otherwise.
   */
  method DeleteWatchHistory(db: Store, userId: int, id: int) returns (r: Response<string>)
    requires db.HistoryTableValid()
    modifies db`watchHistories
    ensures db.HistoryTableValid()
    ensures (exists w | w in old(db.watchHistories) :: Deletable(db.profiles, userId, id, w)) ==>
      && r == Ok("Watch history deleted successfully.")
      && |db.watchHistories| == |old(db.watchHistories)| - 1
      && forall w :: w in db.watchHistories <==> w in old(db.watchHistories) && w.id != id
    ensures (forall w | w in old(db.watchHistories) :: !Deletable(db.profiles, userId, id, w)) ==>
      r == NotFound("Watch history not found.") && db.watchHistories == old(db.watchHistories)
  {
    var h, profiles := db.watchHistories, db.profiles;
    var found := FirstIndex(h, w => Deletable(profiles, userId, id, w));
    if found.None? {
      assert forall w | w in h :: !Deletable(profiles, userId, id, w);
      return NotFound("Watch history not found.");
    }
    var i := found.value;
    RemoveAtByKey(h, i, HistoryKey);
    RemoveAtByKey(h, i, HistorySlot);
    db.watchHistories := RemoveAt(h, i);
    return Ok("Watch history deleted successfully.");
  }

  /** A row of the continue-watching shelf: visible to the caller and not completed. */
  predicate Unfinished(profiles: seq<Profile>, userId: int, profileId: Option<int>, w: WatchHistory) {
    Visible(profiles, userId, profileId, w) && !w.completed
  }

  /**
   * GET api/watchhistory/continue-watching: at most 20 of the caller's
   * unfinished rows, newest first. A candidate is left out only when 20 rows
   * were shown, all of them watched no earlier than it.
   */
  function GetContinueWatching(profiles: seq<Profile>, histories: seq<WatchHistory>, userId: int, profileId: Option<int>)
    : (r: seq<WatchHistory>)
    ensures |r| <= ContinueWatchingCap
    ensures multiset(r) <= multiset(histories)
    ensures forall w | w in r :: Unfinished(profiles, userId, profileId, w)
    ensures SortedBy(r, ByWatchedAtDesc)
    ensures forall w | w in histories && Unfinished(profiles, userId, profileId, w) && w !in r ::
      |r| == ContinueWatchingCap && forall v | v in r :: v.watchedAt >= w.watchedAt
  {
    var unfinished := w => Unfinished(profiles, userId, profileId, w);
    ByWatchedAtDescIsTotalPreorder();
    TopKOfFilter(histories, unfinished, ByWatchedAtDesc, ContinueWatchingCap);
    TopK(Filter(histories, unfinished), ByWatchedAtDesc, ContinueWatchingCap)
  }
}
