/**
 * The paging arithmetic the listing endpoints share: page `page` (from 1) of
 * `pageSize` rows skips the rows of the pages before it, and `totalPages` is
 * the ceiling of the row count over the page size.
 */
module Paging {
  /** The number of pages of `pageSize` rows that `count` rows fill: integer ceiling division. */
  function PageCount(count: nat, pageSize: int): nat
    requires pageSize >= 1
  {
    (count + pageSize - 1) / pageSize
  }

  /** `PageCount` is the least number of pages that hold `count` rows. */
  lemma PageCountIsCeiling(count: nat, pageSize: int)
    requires pageSize >= 1
    ensures PageCount(count, pageSize) * pageSize >= count
    ensures count > 0 ==> (PageCount(count, pageSize) - 1) * pageSize < count
    ensures count == 0 ==> PageCount(count, pageSize) == 0
  {
  }

  lemma SinglePage(count: nat, pageSize: int)
    requires 1 <= pageSize && count <= pageSize
    ensures PageCount(count, pageSize) <= 1
  {
  }

  /** The number of rows the pages before page `page` hold, one page at a time. */
  function Offset(page: int, pageSize: int): nat
    requires page >= 1 && pageSize >= 1
    decreases page
  {
    if page == 1 then 0 else Offset(page - 1, pageSize) + pageSize
  }

  /** The rows skipped before page `page` are `(page - 1) * pageSize`. */
  lemma {:induction false} OffsetIsProduct(page: int, pageSize: int)
    requires page >= 1 && pageSize >= 1
    ensures Offset(page, pageSize) == (page - 1) * pageSize
    decreases page
  {
    if page > 1 {
      OffsetIsProduct(page - 1, pageSize);
      assert (page - 1) * pageSize == (page - 2) * pageSize + pageSize;
    }
  }
}
