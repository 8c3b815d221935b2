/**
 * The catalog endpoints: the listing of active content with its season and
 * episode counts, one title with its rating statistics, and the admin
 * operations that create a title, update six of its fields when the request
 * supplies them, and soft-delete it by clearing its active flag.
 */
module ContentApi {
  import opened Wrappers
  import opened Collections
  import opened Text
  import opened Models
  import opened Database

  /** One row of GET api/content. */
  datatype ContentSummary = ContentSummary(
    id: int,
    title: string,
    description: Option<string>,
    contentType: string,
    genre: Option<string>,
    releaseYear: Option<int>,
    rating: Option<int>,
    duration: Option<int>,
    thumbnailUrl: Option<string>,
    trailerUrl: Option<string>,
    seasonsCount: nat,
    episodesCount: nat)

  /** The number of episodes over all seasons. */
  function EpisodeTotal(seasons: seq<Season>): nat {
    if seasons == [] then 0 else EpisodeTotal(seasons[..|seasons| - 1]) + |seasons[|seasons| - 1].episodes|
  }

  /** Episode totals add up over a split of the seasons. */
  lemma {:induction false} EpisodeTotalAppend(a: seq<Season>, b: seq<Season>)
    ensures EpisodeTotal(a + b) == EpisodeTotal(a) + EpisodeTotal(b)
    decreases |b|
  {
    if b == [] {
      assert a + b == a;
    } else {
      assert (a + b)[..|a + b| - 1] == a + b[..|b| - 1];
      EpisodeTotalAppend(a, b[..|b| - 1]);
    }
  }

  /** Every season's episodes are counted in the total. */
  lemma {:induction false} EpisodeTotalBounds(seasons: seq<Season>)
    ensures forall s | s in seasons :: |s.episodes| <= EpisodeTotal(seasons)
    ensures (forall s | s in seasons :: s.episodes == []) <==> EpisodeTotal(seasons) == 0
    decreases |seasons|
  {
    if seasons != [] {
      var init := seasons[..|seasons| - 1];
      EpisodeTotalBounds(init);
      assert seasons == init + [seasons[|seasons| - 1]];
      assert forall s | s in init :: s in seasons;
    }
  }

  /** The listing's projection of a title: its columns and the counts of its seasons and episodes. */
  function Summarize(c: Content): (r: ContentSummary)
    ensures r.id == c.id && r.seasonsCount == |c.seasons|
    ensures r.episodesCount == EpisodeTotal(c.seasons)
    ensures r.seasonsCount == 0 ==> r.episodesCount == 0
  {
    EpisodeTotalBounds(c.seasons);
    ContentSummary(c.id, c.title, c.description, c.contentType, c.genre, c.releaseYear, c.rating, c.duration,
      c.thumbnailUrl, c.trailerUrl, |c.seasons|, EpisodeTotal(c.seasons))
  }

  /** An active title that passes the listing's filters; an empty or missing filter is no filter. */
  predicate ListedBy(contentType: Option<string>, genre: Option<string>, c: Content) {
    && c.isActive
    && (IsNullOrEmpty(contentType) || c.contentType == contentType.value)
    && (IsNullOrEmpty(genre) || c.genre == genre)
  }

  /**
   * GET api/content: one summary per active title that passes the filters, in
   * table order, and no other.
   */
  function GetAllContent(contents: seq<Content>, contentType: Option<string>, genre: Option<string>)
    : (r: seq<ContentSummary>)
    ensures forall s | s in r :: exists c | c in contents && ListedBy(contentType, genre, c) :: s == Summarize(c)
    ensures forall c | c in contents && ListedBy(contentType, genre, c) :: Summarize(c) in r
    ensures |r| <= |contents|
    decreases |contents|
  {
    if contents == [] then []
    else
      var init, last := contents[..|contents| - 1], contents[|contents| - 1];
      assert contents == init + [last];
      GetAllContent(init, contentType, genre) + (if ListedBy(contentType, genre, last) then [Summarize(last)] else [])
  }

  /** GET api/content/{id}: a title with its rating statistics. */
  datatype ContentDetail = ContentDetail(content: Content, averageRating: real, totalRatings: nat)

  /** The number of ratings of title `id`. */
  function RatingCount(ratings: seq<Rating>, id: int): nat {
    if ratings == [] then 0
    else RatingCount(ratings[..|ratings| - 1], id) + (if ratings[|ratings| - 1].contentId == id then 1 else 0)
  }

  /** The sum of the rating values of title `id`. */
  function RatingSum(ratings: seq<Rating>, id: int): int {
    if ratings == [] then 0
    else RatingSum(ratings[..|ratings| - 1], id) + (if ratings[|ratings| - 1].contentId == id then ratings[|ratings| - 1].ratingValue else 0)
  }

  /** The mean rating value of title `id`, or 0 when it has no rating. */
  function AverageRating(ratings: seq<Rating>, id: int): (r: real)
    ensures RatingCount(ratings, id) == 0 ==> r == 0.0
    ensures RatingCount(ratings, id) > 0 ==> r * RatingCount(ratings, id) as real == RatingSum(ratings, id) as real
  {
    if RatingCount(ratings, id) == 0 then 0.0 else RatingSum(ratings, id) as real / RatingCount(ratings, id) as real
  }

  /** The rating scale: a rating value lies in [1, 5]. */
  const MinRatingValue := 1
  const MaxRatingValue := 5

  /** A rating value on the scale. */
  predicate OnScale(r: Rating) {
    MinRatingValue <= r.ratingValue <= MaxRatingValue
  }

  /** With every rating of a title on the scale, their sum lies between the count times 1 and the count times 5. */
  lemma {:induction false} RatingSumBounds(ratings: seq<Rating>, id: int)
    requires forall r | r in ratings :: OnScale(r)
    ensures RatingCount(ratings, id) <= RatingSum(ratings, id) <= 5 * RatingCount(ratings, id)
    decreases |ratings|
  {
    if ratings != [] {
      var init := ratings[..|ratings| - 1];
      assert forall r | r in init :: r in ratings;
      RatingSumBounds(init, id);
      assert OnScale(ratings[|ratings| - 1]);
    }
  }

  /** A factor below 1 makes a positive number smaller. */
  lemma ProductBelow(q: real, m: real)
    requires m > 0.0 && q < 1.0
    ensures q * m < m
  {
    assert (1.0 - q) * m > 0.0;
  }

  /** A factor above 5 makes a positive number more than five times larger. */
  lemma ProductAbove(q: real, m: real)
    requires m > 0.0 && q > 5.0
    ensures q * m > 5.0 * m
  {
    assert (q - 5.0) * m > 0.0;
  }

  /** A number that times `m` gives a value between `m` and `5 * m` lies in [1, 5]. */
  lemma ScaleFromProduct(q: real, m: real, s: real)
    requires m > 0.0 && q * m == s && m <= s <= 5.0 * m
    ensures 1.0 <= q <= 5.0
  {
    if q < 1.0 {
      ProductBelow(q, m);
    }
    if q > 5.0 {
      ProductAbove(q, m);
    }
  }

  /** With every rating on the scale, the average rating of a rated title lies in [1, 5] too. */
  lemma AverageOnScale(ratings: seq<Rating>, id: int)
    requires forall r | r in ratings :: OnScale(r)
    requires RatingCount(ratings, id) > 0
    ensures MinRatingValue as real <= AverageRating(ratings, id) <= MaxRatingValue as real
  {
    RatingSumBounds(ratings, id);
    ScaleFromProduct(AverageRating(ratings, id), RatingCount(ratings, id) as real, RatingSum(ratings, id) as real);
  }

  /**
   * The title `id` when it is active. An inactive or missing title is not
   * found, so a soft-deleted title disappears from this endpoint.
   */
  function GetContentById(contents: seq<Content>, ratings: seq<Rating>, id: int): (r: Response<ContentDetail>)
    ensures r.Ok? || r == NotFound("Content not found.")
    ensures r.Ok? <==> exists c | c in contents :: c.id == id && c.isActive
    ensures r.Ok? ==> r.value.content in contents && r.value.content.id == id && r.value.content.isActive
    ensures r.Ok? ==> r.value.totalRatings == RatingCount(ratings, id) && r.value.averageRating == AverageRating(ratings, id)
  {
    match FirstIndex(contents, (c: Content) => c.id == id && c.isActive)
    case None => NotFound("Content not found.")
    case Some(i) => Ok(ContentDetail(contents[i], AverageRating(ratings, id), RatingCount(ratings, id)))
  }

  /** POST api/content: the fields of a new title. */
  datatype CreateContentRequest = CreateContentRequest(
    title: string,
    description: Option<string>,
    contentType: string,
    genre: Option<string>,
    releaseYear: Option<int>,
    duration: Option<int>,
    thumbnailUrl: Option<string>,
    trailerUrl: Option<string>,
    videoUrl: Option<string>)

  /** A new title: the request's fields, no rating, active, no seasons. */
  function NewContent(id: int, req: CreateContentRequest, now: int): Content {
    Content(id, req.title, req.description, req.contentType, req.genre, req.releaseYear, None, req.duration,
      req.thumbnailUrl, req.trailerUrl, req.videoUrl, DefaultIsActive, now, [])
  }

  /**
   * POST api/content: appends the new title under the next identity and
   * answers with the stored entity (201 Created, whose location names that
   * identity).
   */
  method CreateContent(db: Store, req: CreateContentRequest, now: int) returns (r: Response<Content>)
    requires db.ContentTableValid()
    modifies db`contents, db`nextContentId
    ensures db.ContentTableValid()
    ensures r == Ok(NewContent(old(db.nextContentId), req, now))
    ensures db.contents == old(db.contents) + [r.value]
  {
    var c := NewContent(db.nextContentId, req, now);
    DistinctByAppend(db.contents, c, ContentKey);
    db.contents := db.contents + [c];
    db.nextContentId := db.nextContentId + 1;
    return Ok(c);
  }

  /** A title created by the admin is found by its identity, with no ratings yet. */
  lemma CreatedIsFound(contents: seq<Content>, ratings: seq<Rating>, id: int, req: CreateContentRequest, now: int)
    requires forall c | c in contents :: c.id != id
    ensures GetContentById(contents + [NewContent(id, req, now)], ratings, id).Ok?
    ensures GetContentById(contents + [NewContent(id, req, now)], ratings, id).value.content == NewContent(id, req, now)
  {
    var cs := contents + [NewContent(id, req, now)];
    assert cs[|contents|] in cs;
  }

  /** PUT api/content/{id}: the fields to replace; a missing field keeps its value. */
  datatype UpdateContentRequest = UpdateContentRequest(
    title: Option<string>,
    description: Option<string>,
    genre: Option<string>,
    thumbnailUrl: Option<string>,
    trailerUrl: Option<string>,
    videoUrl: Option<string>)

  /** `request.X ?? content.X` on the six updatable fields. */
  function Updated(c: Content, req: UpdateContentRequest): Content {
    c.(title := req.title.GetOr(c.title),
       description := if req.description.Some? then req.description else c.description,
       genre := if req.genre.Some? then req.genre else c.genre,
       thumbnailUrl := if req.thumbnailUrl.Some? then req.thumbnailUrl else c.thumbnailUrl,
       trailerUrl := if req.trailerUrl.Some? then req.trailerUrl else c.trailerUrl,
       videoUrl := if req.videoUrl.Some? then req.videoUrl else c.videoUrl)
  }

  /**
   * A supplied field replaces the stored one and a missing field keeps it; the
   * type, release year, rating, duration, active flag and identity never change;
   * applying the same request twice is the same as once.
   */
  lemma UpdatedFields(c: Content, req: UpdateContentRequest)
    ensures var u := Updated(c, req);
      && (req.title.Some? ==> u.title == req.title.value) && (req.title.None? ==> u.title == c.title)
      && (req.description.Some? ==> u.description == req.description) && (req.description.None? ==> u.description == c.description)
      && (req.genre.Some? ==> u.genre == req.genre) && (req.genre.None? ==> u.genre == c.genre)
      && (req.thumbnailUrl.Some? ==> u.thumbnailUrl == req.thumbnailUrl) && (req.thumbnailUrl.None? ==> u.thumbnailUrl == c.thumbnailUrl)
      && (req.trailerUrl.Some? ==> u.trailerUrl == req.trailerUrl) && (req.trailerUrl.None? ==> u.trailerUrl == c.trailerUrl)
      && (req.videoUrl.Some? ==> u.videoUrl == req.videoUrl) && (req.videoUrl.None? ==> u.videoUrl == c.videoUrl)
      && u.id == c.id && u.contentType == c.contentType && u.releaseYear == c.releaseYear
      && u.rating == c.rating && u.duration == c.duration && u.isActive == c.isActive
      && u.createdAt == c.createdAt && u.seasons == c.seasons
    ensures Updated(Updated(c, req), req) == Updated(c, req)
    ensures Updated(c, UpdateContentRequest(None, None, None, None, None, None)) == c
  {
  }

  /** No title has identity `id`: the admin endpoints answer NotFound. */
  predicate Missing(contents: seq<Content>, id: int) {
    forall c | c in contents :: c.id != id
  }

  lemma ReplaceByIdKeepsKeys(contents: seq<Content>, id: int, f: Content -> Content, next: int)
    requires DistinctBy(contents, ContentKey) && forall c | c in contents :: c.id < next
    requires forall c :: f(c).id == c.id
    ensures DistinctBy(ReplaceByKey(contents, ContentKey, id, f), ContentKey)
    ensures forall c | c in ReplaceByKey(contents, ContentKey, id, f) :: c.id < next
  {
    var r := ReplaceByKey(contents, ContentKey, id, f);
    assert forall i | 0 <= i < |r| :: r[i].id == contents[i].id;
    assert forall i | 0 <= i < |r| :: contents[i] in contents;
  }

  /**
   * PUT api/content/{id}: NotFound with no change for an unknown identity;
   * otherwise the title, active or not, takes the supplied fields.
   */
  method UpdateContent(db: Store, id: int, req: UpdateContentRequest) returns (r: Response<string>)
    requires db.ContentTableValid()
    modifies db`contents
    ensures db.ContentTableValid()
    ensures Missing(old(db.contents), id) ==> r == NotFound("Content not found.") && db.contents == old(db.contents)
    ensures !Missing(old(db.contents), id) ==>
      r == Ok("Content updated successfully.") && db.contents == ReplaceByKey(old(db.contents), ContentKey, id, c => Updated(c, req))
  {
    if forall c | c in db.contents :: c.id != id {
      return NotFound("Content not found.");
    }
    ReplaceByIdKeepsKeys(db.contents, id, c => Updated(c, req), db.nextContentId);
    db.contents := ReplaceByKey(db.contents, ContentKey, id, c => Updated(c, req));
    return Ok("Content updated successfully.");
  }

  /** The soft delete of a title. */
  function Deactivated(c: Content): Content {
    c.(isActive := false)
  }

  /**
   * DELETE api/content/{id}: NotFound with no change for an unknown identity;
   * otherwise the title stays in the table with its active flag cleared.
   */
  method DeleteContent(db: Store, id: int) returns (r: Response<string>)
    requires db.ContentTableValid()
    modifies db`contents
    ensures db.ContentTableValid()
    ensures Missing(old(db.contents), id) ==> r == NotFound("Content not found.") && db.contents == old(db.contents)
    ensures !Missing(old(db.contents), id) ==>
      r == Ok("Content deleted successfully.") && db.contents == ReplaceByKey(old(db.contents), ContentKey, id, Deactivated)
  {
    if forall c | c in db.contents :: c.id != id {
      return NotFound("Content not found.");
    }
    ReplaceByIdKeepsKeys(db.contents, id, Deactivated, db.nextContentId);
    db.contents := ReplaceByKey(db.contents, ContentKey, id, Deactivated);
    return Ok("Content deleted successfully.");
  }

  /**
   * A soft delete keeps every row and changes only the active flag of the
   * deleted title; deleting again changes nothing more; and the title is no
   * longer found.
   */
  lemma SoftDeleteProperties(contents: seq<Content>, ratings: seq<Rating>, id: int)
    ensures var d := ReplaceByKey(contents, ContentKey, id, Deactivated);
      && |d| == |contents|
      && (forall i | 0 <= i < |d| :: d[i].id == contents[i].id && d[i].(isActive := contents[i].isActive) == contents[i])
      && ReplaceByKey(d, ContentKey, id, Deactivated) == d
      && GetContentById(d, ratings, id) == NotFound("Content not found.")
  {
    var d := ReplaceByKey(contents, ContentKey, id, Deactivated);
    var dd := ReplaceByKey(d, ContentKey, id, Deactivated);
    assert forall i | 0 <= i < |d| :: dd[i] == d[i];
    assert forall c | c in d :: !(c.id == id && c.isActive);
  }

  /** A soft-deleted title drops out of the listing, whatever the filters. */
  lemma SoftDeletedNotListed(contents: seq<Content>, id: int, contentType: Option<string>, genre: Option<string>)
    ensures forall s | s in GetAllContent(ReplaceByKey(contents, ContentKey, id, Deactivated), contentType, genre) :: s.id != id
  {
    var d := ReplaceByKey(contents, ContentKey, id, Deactivated);
    forall s | s in GetAllContent(d, contentType, genre) ensures s.id != id {
      var c :| c in d && ListedBy(contentType, genre, c) && s == Summarize(c);
    }
  }
}
