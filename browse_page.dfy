/**
 * The browse page: every title of the catalog listing becomes a card whose
 * missing fields take display defaults, and a category button narrows the
 * cards to one genre. Ratings are in tenths.
 */
module BrowsePage {
  import opened Wrappers
  import opened Collections
  import opened Text
  import opened Display
  import opened ContentApi

  /** The card shown for a title. */
  datatype Card = Card(
    id: string,
    title: string,
    thumbnail: string,
    duration: string,
    rating: int,
    year: int,
    genre: string,
    description: string,
    cardType: string)

  const PlaceholderThumbnail := "https://via.placeholder.com/300x450"
  const DefaultYear := 2024
  const UnknownGenre := "Unknown"

  /** The category buttons; "all" shows every card. */
  const AllCategory := "all"
  const Categories: seq<string> := [AllCategory, "action", "comedy", "drama", "thriller", "sci-fi", "romance"]

  /**
   * `formatDuration`: "N/A" when the running time is missing or 0 (both are
   * falsy), otherwise the shared running-time text.
   */
  function FormatDuration(minutes: Option<int>): (r: string)
    ensures minutes.None? || minutes == Some(0) <==> r == "N/A"
    ensures minutes.Some? && minutes.value > 0 ==> ParseDuration(r) == Some(minutes.value)
  {
    if minutes.None? || minutes.value == 0 then "N/A"
    else
      var r := DurationText(minutes.value);
      assert r != "N/A" by {
        assert r[|r| - 1] == 'm';
      }
      if minutes.value > 0 then DurationRoundTrip(minutes.value); r else r
  }

  /** JavaScript's `s || fallback` on a string that may be missing: the empty string is falsy too. */
  function OrText(s: Option<string>, fallback: string): (r: string)
    ensures s.Some? && s.value != "" ==> r == s.value
    ensures s.None? || s.value == "" ==> r == fallback
  {
    if s.Some? && s.value != "" then s.value else fallback
  }

  /** JavaScript's `n || fallback` on a number that may be missing: 0 is falsy too. */
  function OrNumber(n: Option<int>, fallback: int): (r: int)
    ensures n.Some? && n.value != 0 ==> r == n.value
    ensures n.None? || n.value == 0 ==> r == fallback
  {
    if n.Some? && n.value != 0 then n.value else fallback
  }

  /**
   * The card for a listed title: its identity as text; the thumbnail, rating,
   * year, genre and description when present and not empty or zero, else
   * the placeholder, 0, 2024, "Unknown" and ""; the type "series" exactly
   * when the title's type is "series" in any letter case, "movie" otherwise.
   */
  function MapItem(item: ContentSummary): (r: Card)
    ensures r.cardType == "series" <==> ToLower(item.contentType) == "series"
    ensures r.cardType == "series" || r.cardType == "movie"
    ensures r.title == item.title && r.id == IntToString(item.id)
    ensures r.rating == OrNumber(item.rating, 0) && r.year == OrNumber(item.releaseYear, DefaultYear)
    ensures r.genre == OrText(item.genre, UnknownGenre) && r.genre != ""
    ensures r.thumbnail == OrText(item.thumbnailUrl, PlaceholderThumbnail)
    ensures r.description == OrText(item.description, "")
    ensures r.duration == FormatDuration(item.duration)
  {
    Card(
      IntToString(item.id),
      item.title,
      OrText(item.thumbnailUrl, PlaceholderThumbnail),
      FormatDuration(item.duration),
      OrNumber(item.rating, 0),
      OrNumber(item.releaseYear, DefaultYear),
      OrText(item.genre, UnknownGenre),
      OrText(item.description, ""),
      if ToLower(item.contentType) == "series" then "series" else "movie")
  }

  /** The cards of the catalog listing, in its order. */
  function MapItems(items: seq<ContentSummary>): (r: seq<Card>)
    ensures |r| == |items|
    ensures forall i | 0 <= i < |items| :: r[i] == MapItem(items[i])
  {
    seq(|items|, i requires 0 <= i < |items| => MapItem(items[i]))
  }

  /** The card's genre, lower-cased, is the category. */
  predicate InCategory(category: string, card: Card) {
    ToLower(card.genre) == category
  }

  /**
   * `filteredContent`: every card for "all"; otherwise, in their order,
   * exactly the cards whose lower-cased genre is the category.
   */
  function FilterByCategory(cards: seq<Card>, category: string): (r: seq<Card>)
    ensures category == AllCategory ==> r == cards
    ensures category != AllCategory ==>
      && (forall c :: c in r <==> c in cards && InCategory(category, c))
      && Subsequence(r, cards)
      && (forall c :: multiset(r)[c] == if InCategory(category, c) then multiset(cards)[c] else 0)
  {
    if category == AllCategory then cards else Filter(cards, c => InCategory(category, c))
  }

  /** Choosing the same category twice shows the same cards. */
  lemma FilterIdempotent(cards: seq<Card>, category: string)
    ensures FilterByCategory(FilterByCategory(cards, category), category) == FilterByCategory(cards, category)
  {
    if category != AllCategory {
      var r := FilterByCategory(cards, category);
      FilterKeepsAll(r, (c: Card) => InCategory(category, c));
    }
  }

  /** No card of a title without a genre falls in a category other than "unknown". */
  lemma UnknownGenreCategory(item: ContentSummary, category: string)
    requires item.genre.None? && category != "unknown"
    ensures !InCategory(category, MapItem(item))
  {
    assert ToLower(UnknownGenre) == "unknown";
  }
}
