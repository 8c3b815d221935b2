/**
 * The search endpoints: catalog search with optional filters and paging, and
 * the lists of genres and release years that feed the search form. Only active
 * content is ever searched. Ratings (and the minimum rating) are in tenths.
 */
module SearchApi {
  import opened Wrappers
  import opened Collections
  import opened Sorting
  import opened Text
  import opened Models
  import opened Paging

  /** The filters of GET api/search. A blank text, type or genre is no filter. */
  datatype SearchFilters = SearchFilters(
    query: Option<string>,
    contentType: Option<string>,
    genre: Option<string>,
    year: Option<int>,
    minRating: Option<int>)

  datatype SearchResult = SearchResult(
    results: seq<Content>,
    totalCount: nat,
    page: int,
    pageSize: int,
    totalPages: nat)

  /** The text occurs in the title, or in the description when there is one. */
  predicate TextMatches(text: string, c: Content) {
    Contains(c.title, text) || (c.description.Some? && Contains(c.description.value, text))
  }

  /**
   * `c` passes every filter the query switches on. A missing rating or release
   * year fails the rating and year filters, as a comparison with NULL does.
   */
  predicate MatchesSearch(q: SearchFilters, c: Content) {
    && c.isActive
    && (IsNullOrWhiteSpace(q.query) || TextMatches(q.query.value, c))
    && (IsNullOrWhiteSpace(q.contentType) || c.contentType == q.contentType.value)
    && (IsNullOrWhiteSpace(q.genre) || (c.genre.Some? && Contains(c.genre.value, q.genre.value)))
    && (q.year.None? || c.releaseYear == q.year)
    && (q.minRating.None? || (c.rating.Some? && c.rating.value >= q.minRating.value))
  }

  /** The number of rows of `contents` that match, counted one by one. */
  function MatchCount(contents: seq<Content>, q: SearchFilters): nat {
    if contents == [] then 0
    else (if MatchesSearch(q, contents[0]) then 1 else 0) + MatchCount(contents[1..], q)
  }

  /** The query's filter as a predicate on rows. */
  function Matcher(q: SearchFilters): Content -> bool {
    c => MatchesSearch(q, c)
  }

  /** The matches of a query, in table order. */
  function Matches(contents: seq<Content>, q: SearchFilters): (r: seq<Content>)
    ensures forall c :: multiset(r)[c] == if MatchesSearch(q, c) then multiset(contents)[c] else 0
    ensures multiset(r) <= multiset(contents)
    ensures forall c | c in r :: c in contents && MatchesSearch(q, c)
    ensures |r| == MatchCount(contents, q)
  {
    MatchesCounted(contents, q);
    Filter(contents, Matcher(q))
  }

  lemma {:induction false} MatchesCounted(contents: seq<Content>, q: SearchFilters)
    ensures |Filter(contents, Matcher(q))| == MatchCount(contents, q)
    decreases |contents|
  {
    if contents != [] {
      MatchesCounted(contents[1..], q);
    }
  }

  /**
   * GET api/search: `totalCount` counts every match; `results` is page `page`
   * of the matches ordered by rating, then release year, both descending;
   * `totalPages` is the number of pages the matches fill.
   */
  function Search(contents: seq<Content>, q: SearchFilters, page: int, pageSize: int): (r: SearchResult)
    requires page >= 1 && pageSize >= 1
    ensures r.totalCount == MatchCount(contents, q)
    ensures forall c | c in r.results :: c in contents && MatchesSearch(q, c)
    ensures multiset(r.results) <= multiset(contents)
    ensures SortedBy(r.results, Outranks)
    ensures |r.results| == Min(pageSize, Max(0, r.totalCount - Offset(page, pageSize)))
    ensures r.page == page && r.pageSize == pageSize
    ensures r.totalPages == PageCount(r.totalCount, pageSize)
  {
    var ranked := Ranked(contents, q);
    var results := Slice(ranked, Offset(page, pageSize), pageSize);
    RankedSlice(contents, q, Offset(page, pageSize), pageSize);
    SearchResult(results, |ranked|, page, pageSize, PageCount(|ranked|, pageSize))
  }

  /** Any slice of the ranked matches is ordered, and holds matching rows of the table. */
  lemma RankedSlice(contents: seq<Content>, q: SearchFilters, skip: nat, take: nat)
    ensures var r := Slice(Ranked(contents, q), skip, take);
      && SortedBy(r, Outranks)
      && multiset(r) <= multiset(contents)
      && forall c | c in r :: c in contents && MatchesSearch(q, c)
  {
    var ranked := Ranked(contents, q);
    var r := Slice(ranked, skip, take);
    SliceSorted(ranked, Outranks, skip, take);
    SliceSubMultiset(ranked, skip, take);
    forall c | c in r ensures c in contents && MatchesSearch(q, c) {
      assert c in multiset(r);
      assert c in multiset(ranked);
    }
  }

  /** The matches ordered by rating, then release year, both descending. */
  function Ranked(contents: seq<Content>, q: SearchFilters): (r: seq<Content>)
    ensures multiset(r) == multiset(Matches(contents, q))
    ensures SortedBy(r, Outranks)
    ensures |r| == MatchCount(contents, q)
  {
    OutranksIsTotalPreorder();
    Sort(Matches(contents, q), Outranks)
  }

  /**
   * Paging loses nothing and repeats nothing: page `p` followed by page `p + 1`
   * is the slice of the ordered matches two pages long.
   */
  lemma ConsecutivePages(contents: seq<Content>, q: SearchFilters, page: int, pageSize: int)
    requires page >= 1 && pageSize >= 1
    ensures Search(contents, q, page, pageSize).results + Search(contents, q, page + 1, pageSize).results
      == Slice(Ranked(contents, q), Offset(page, pageSize), pageSize + pageSize)
  {
    var ranked, skip := Ranked(contents, q), Offset(page, pageSize);
    assert Search(contents, q, page, pageSize).results == Slice(ranked, skip, pageSize);
    assert Offset(page + 1, pageSize) == skip + pageSize;
    assert Search(contents, q, page + 1, pageSize).results == Slice(ranked, skip + pageSize, pageSize);
    SliceConcat(ranked, skip, pageSize, pageSize);
  }

  /** With a page size at least the number of matches, the first page is every match. */
  lemma FirstPageHoldsAll(contents: seq<Content>, q: SearchFilters, pageSize: int)
    requires pageSize >= MatchCount(contents, q) && pageSize >= 1
    ensures multiset(Search(contents, q, 1, pageSize).results) == multiset(Matches(contents, q))
    ensures Search(contents, q, 1, pageSize).totalPages <= 1
  {
    var r := Search(contents, q, 1, pageSize);
    SubMultisetOfSameSize(Ranked(contents, q), r.results);
    SinglePage(r.totalCount, pageSize);
  }

  /** The ordinal order of strings ranks every pair consistently. */
  lemma StrLeIsTotalPreorder()
    ensures TotalPreorder(StrLe)
  {
    forall a: string, b: string ensures StrLe(a, b) || StrLe(b, a) {
      StrLeTotal(a, b);
    }
    forall a: string, b: string, c: string | StrLe(a, b) && StrLe(b, c) ensures StrLe(a, c) {
      StrLeTransitive(a, b, c);
    }
  }

  /** The genre of an active title with a non-empty genre, or nothing. */
  function ListedGenre(c: Content): Option<string> {
    if c.isActive && !IsNullOrEmpty(c.genre) then c.genre else None
  }

  function ListedGenres(contents: seq<Content>): (r: seq<string>)
    ensures forall g :: g in r <==> exists c | c in contents :: ListedGenre(c) == Some(g)
  {
    if contents == [] then []
    else
      var rest := ListedGenres(contents[1..]);
      assert forall c | c in contents[1..] :: c in contents;
      assert contents == [contents[0]] + contents[1..];
      match ListedGenre(contents[0])
      case Some(g) => [g] + rest
      case None => rest
  }

  /**
   * GET api/search/genres: each non-empty genre of active content exactly once,
   * in ascending ordinal order.
   */
  function GetGenres(contents: seq<Content>): (r: seq<string>)
    ensures forall g :: g in r <==> exists c | c in contents :: c.isActive && c.genre == Some(g) && g != ""
    ensures forall i, j | 0 <= i < j < |r| :: StrLe(r[i], r[j]) && r[i] != r[j]
  {
    var d := Dedup(ListedGenres(contents));
    StrLeIsTotalPreorder();
    var r := Sort(d, StrLe);
    DistinctBySubMultiset(d, r, Self);
    assert forall g :: g in r <==> g in d by {
      forall g ensures g in r <==> g in d {
        assert g in r <==> g in multiset(r);
        assert g in d <==> g in multiset(d);
      }
    }
    assert forall i, j | 0 <= i < j < |r| :: Self(r[i]) != Self(r[j]);
    r
  }

  /** The release year of an active title that has one, or nothing. */
  function ListedYear(c: Content): Option<int> {
    if c.isActive then c.releaseYear else None
  }

  function ListedYears(contents: seq<Content>): (r: seq<int>)
    ensures forall y :: y in r <==> exists c | c in contents :: ListedYear(c) == Some(y)
  {
    if contents == [] then []
    else
      var rest := ListedYears(contents[1..]);
      assert forall c | c in contents[1..] :: c in contents;
      assert contents == [contents[0]] + contents[1..];
      match ListedYear(contents[0])
      case Some(y) => [y] + rest
      case None => rest
  }

  function YearDesc(a: int, b: int): bool {
    a >= b
  }

  /** GET api/search/years: each release year of active content exactly once, newest first. */
  function GetYears(contents: seq<Content>): (r: seq<int>)
    ensures forall y :: y in r <==> exists c | c in contents :: c.isActive && c.releaseYear == Some(y)
    ensures forall i, j | 0 <= i < j < |r| :: r[i] > r[j]
  {
    var d := Dedup(ListedYears(contents));
    var r := Sort(d, YearDesc);
    DistinctBySubMultiset(d, r, Self);
    assert forall y :: y in r <==> y in d by {
      forall y ensures y in r <==> y in d {
        assert y in r <==> y in multiset(r);
        assert y in d <==> y in multiset(d);
      }
    }
    assert forall i, j | 0 <= i < j < |r| :: Self(r[i]) != Self(r[j]);
    r
  }
}
