/**
 * Page arithmetic shared by the listing endpoints and the admin pages:
 * offsets, page counts, the window of rows a `LIMIT ? OFFSET ?` query
 * returns, the Previous/Next clamps and the "showing x to y" range.
 */
module Pagination {

  /** Rows per page: the endpoints' `$limit = 10` and the pages' `itemsPerPage = 10`. */
  const PageSize: nat := 10

  /** `($page - 1) * $limit`; a page below 1 is not clamped, so the offset may be negative. */
  function Offset(page: int, limit: int): int {
    (page - 1) * limit
  }

  /** `ceil(total / 10)`: the least number of pages of ten that hold `total` rows. */
  function PageCount(total: nat): (pages: nat)
    ensures total <= pages * PageSize
    ensures pages == 0 || (pages - 1) * PageSize < total
  {
    (total + PageSize - 1) / PageSize
  }

  /** The two conditions on `PageCount` determine it. */
  lemma PageCountUnique(total: nat, k: nat)
    requires total <= k * PageSize && (k == 0 || (k - 1) * PageSize < total)
    ensures k == PageCount(total)
  {
  }

  /** Every row index lies on a page between 1 and the page count, inside that page's window. */
  lemma RowOnSomePage(total: nat, i: nat)
    requires i < total
    ensures 1 <= i / PageSize + 1 <= PageCount(total)
    ensures Offset(i / PageSize + 1, PageSize) <= i < Offset(i / PageSize + 1, PageSize) + PageSize
  {
  }

  /** The rows a `LIMIT limit OFFSET offset` query returns from an ordered result. */
  function Window<T>(rows: seq<T>, offset: int, limit: int): (r: seq<T>)
    requires offset >= 0 && limit >= 0
    ensures |r| <= limit
    ensures offset >= |rows| ==> r == []
    ensures forall k :: 0 <= k < |r| ==> offset + k < |rows| && r[k] == rows[offset + k]
    ensures offset + limit <= |rows| ==> |r| == limit
    ensures offset <= |rows| <= offset + limit ==> |r| == |rows| - offset
  {
    if offset >= |rows| then []
    else if offset + limit <= |rows| then rows[offset..offset + limit]
    else rows[offset..]
  }

  /** The Previous button: `Math.max(1, page - 1)`. */
  function PrevPage(page: int): int {
    if page - 1 > 1 then page - 1 else 1
  }

  /** The Next button: `Math.min(totalPages, page + 1)`. */
  function NextPage(page: int, totalPages: int): int {
    if totalPages < page + 1 then totalPages else page + 1
  }

  /** From a page between 1 and the page count, Previous and Next stay between 1 and the page count. */
  lemma ClampsStayInRange(page: int, totalPages: int)
    requires 1 <= page <= totalPages
    ensures 1 <= PrevPage(page) <= page && 1 <= PrevPage(page) <= totalPages
    ensures page <= NextPage(page, totalPages) <= totalPages
    ensures page > 1 ==> PrevPage(page) == page - 1
    ensures page < totalPages ==> NextPage(page, totalPages) == page + 1
  {
  }

  /** Previous never goes below 1 and Next never goes above the page count, from any page. */
  lemma ClampBounds(page: int, totalPages: int)
    ensures PrevPage(page) >= 1
    ensures NextPage(page, totalPages) <= totalPages
  {
  }

  /** First row number of the "showing x to y of n" line: `(page - 1) * 10 + 1`. */
  function ShownFirst(page: int): int {
    Offset(page, PageSize) + 1
  }

  /** Last row number of that line: `Math.min(page * 10, total)`. */
  function ShownLast(page: int, total: int): int {
    if page * PageSize < total then page * PageSize else total
  }

  /**
   * On any page from 1 to the page count, the shown range numbers exactly
   * the rows the listing query returns for that page.
   */
  lemma ShownRangeIsWindow<T>(rows: seq<T>, page: int)
    requires 1 <= page <= PageCount(|rows|)
    ensures Offset(page, PageSize) >= 0
    ensures ShownFirst(page) <= ShownLast(page, |rows|)
    ensures ShownLast(page, |rows|) - ShownFirst(page) + 1 == |Window(rows, Offset(page, PageSize), PageSize)|
  {
  }
}
