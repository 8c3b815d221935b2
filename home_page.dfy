/**
 * The home page: from the catalog listing it derives the featured title and
 * the rows shown under it (trending, top rated, action, comedy, drama), each
 * capped at 10 titles; with an empty listing, or when the listing cannot be
 * loaded, a built-in stand-in title fills the rows. Ratings are in tenths.
 */
module HomePage {
  import opened Wrappers
  import opened Collections
  import opened Sorting
  import opened Text
  import opened Display
  import opened ContentApi

  /** A title as the page reads it from the listing. */
  datatype Item = Item(
    id: int,
    title: string,
    description: Option<string>,
    contentType: string,
    genre: Option<string>,
    releaseYear: Option<int>,
    rating: Option<int>,
    duration: Option<int>,
    thumbnailUrl: Option<string>,
    trailerUrl: Option<string>,
    videoUrl: Option<string>)

  /** A listing entry as the page sees it; the listing carries no video address. */
  function FromSummary(s: ContentSummary): Item {
    Item(s.id, s.title, s.description, s.contentType, s.genre, s.releaseYear, s.rating, s.duration,
      s.thumbnailUrl, s.trailerUrl, None)
  }

  /** The stand-in title used when there is nothing to show. */
  const MockItem := Item(
    1,
    "The Dark Knight",
    Some("When the menace known as the Joker wreaks havoc and chaos on the people of Gotham, Batman must accept one of the greatest psychological and physical tests of his ability to fight injustice."),
    "Movie",
    Some("Action"),
    Some(2008),
    Some(90),
    Some(152),
    Some("https://images.unsplash.com/photo-1489599849927-2ee91cede3ba?w=1920&h=1080&fit=crop"),
    Some(""),
    Some(""))

  /** The number of titles a row shows. */
  const RowCap := 10

  /** `formatDuration` of the home page: the shared running-time text, so 0 gives "0m". */
  function FormatDuration(minutes: int): (r: string)
    ensures minutes >= 0 ==> ParseDuration(r) == Some(minutes)
  {
    if minutes >= 0 then DurationRoundTrip(minutes); DurationText(minutes) else DurationText(minutes)
  }

  /** `rating || 0`. */
  function RatingOrZero(i: Item): int {
    if i.rating.Some? then i.rating.value else 0
  }

  /** The top-rated order: higher rating first, a missing rating counting as 0. */
  predicate ByRatingDesc(a: Item, b: Item) {
    RatingOrZero(a) >= RatingOrZero(b)
  }

  lemma ByRatingDescIsTotalPreorder()
    ensures TotalPreorder(ByRatingDesc)
  {
  }

  /**
   * The top-rated row: the first 10 of a sorted copy of the listing; no
   * title left out rates higher than one shown, and the listing itself is
   * a value, so sorting the copy leaves it as it was.
   */
  function TopRated(items: seq<Item>): (r: seq<Item>)
    ensures |r| == Min(RowCap, |items|)
    ensures SortedBy(r, ByRatingDesc)
    ensures multiset(r) <= multiset(items)
    ensures forall x, y | x in items && x !in r && y in r :: RatingOrZero(x) <= RatingOrZero(y)
  {
    ByRatingDescIsTotalPreorder();
    TopK(items, ByRatingDesc, RowCap)
  }

  /** The title's genre, lower-cased, contains `keyword`; a missing genre contains nothing. */
  predicate GenreMatches(keyword: string, i: Item) {
    i.genre.Some? && Contains(ToLower(i.genre.value), keyword)
  }

  /**
   * A genre row: in listing order, the first 10 titles whose lower-cased
   * genre contains the keyword; a matching title is left out only when 10
   * are shown.
   */
  function GenreRow(items: seq<Item>, keyword: string): (r: seq<Item>)
    ensures |r| <= RowCap
    ensures forall x | x in r :: x in items && GenreMatches(keyword, x)
    ensures Subsequence(r, items)
    ensures forall x | x in items && GenreMatches(keyword, x) && x !in r :: |r| == RowCap
  {
    var matching := Filter(items, i => GenreMatches(keyword, i));
    var r := Take(matching, RowCap);
    SubsequencePrefix(matching, items, |r|);
    assert forall x | x in r :: x in matching;
    r
  }

  /** The featured title and the rows of the page. */
  datatype HomeRows = HomeRows(
    featured: Option<Item>,
    trending: seq<Item>,
    topRated: seq<Item>,
    action: seq<Item>,
    comedy: seq<Item>,
    drama: seq<Item>)

  /**
   * `fetchContent`: from a loaded, non-empty listing, the first title is
   * featured, trending is the first 10 titles, and the other rows are the
   * top-rated row and the genre rows; an empty listing puts the stand-in in
   * the featured slot and the trending, top-rated and action rows; a failed
   * load (`None`) puts it in the featured slot and the trending row only.
   */
  function DeriveRows(response: Option<seq<Item>>): (r: HomeRows)
    ensures response.Some? && |response.value| > 0 ==>
      var items := response.value;
      && r.featured == Some(items[0])
      && r.trending == items[..Min(RowCap, |items|)]
      && r.topRated == TopRated(items)
      && r.action == GenreRow(items, "action")
      && r.comedy == GenreRow(items, "comedy")
      && r.drama == GenreRow(items, "drama")
    ensures response == Some([]) ==> r == HomeRows(Some(MockItem), [MockItem], [MockItem], [MockItem], [], [])
    ensures response.None? ==> r == HomeRows(Some(MockItem), [MockItem], [], [], [], [])
  {
    match response
    case None => HomeRows(Some(MockItem), [MockItem], [], [], [], [])
    case Some(items) =>
      if |items| > 0 then
        HomeRows(Some(items[0]), Take(items, RowCap), TopRated(items),
          GenreRow(items, "action"), GenreRow(items, "comedy"), GenreRow(items, "drama"))
      else
        HomeRows(Some(MockItem), [MockItem], [MockItem], [MockItem], [], [])
  }

  /** The page always features a title, and its trending row is never empty. */
  lemma AlwaysFeatured(response: Option<seq<Item>>)
    ensures DeriveRows(response).featured.Some?
    ensures 1 <= |DeriveRows(response).trending| <= RowCap
  {
  }

  /** The stand-in title is an action title, so it belongs in the action row it is placed in. */
  lemma MockIsAction()
    ensures GenreMatches("action", MockItem)
  {
    assert ToLower("Action") == "action";
    assert "action" <= ToLower("Action");
  }
}
