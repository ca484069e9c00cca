/** The page envelope of the order list and its two navigation flags. */
module Pagination {
  import opened Decimal
  import opened Sequences

  datatype PaginatedResponse<T> = PaginatedResponse(
    items: seq<T>,
    page: int,
    pageSize: int,
    totalCount: int,
    totalPages: int)
  {
    predicate HasPreviousPage() {
      page > 1
    }

    predicate HasNextPage() {
      page < totalPages
    }
  }

  /** `(int)Math.Ceiling(totalCount / (double)pageSize)`: the fewest pages that hold every item. */
  function TotalPages(totalCount: nat, pageSize: int): (r: nat)
    requires pageSize >= 1
    ensures r * pageSize >= totalCount
    ensures r == 0 || (r - 1) * pageSize < totalCount
  {
    var r := (totalCount + pageSize - 1) / pageSize;
    assert r * pageSize > totalCount - pageSize;
    r
  }

  /** `(page - 1) * pageSize`: how many items come before the page. */
  function FirstOnPage(page: int, pageSize: int): nat
    requires page >= 1 && pageSize >= 1
  {
    MulMonotone(0, page - 1, pageSize);
    (page - 1) * pageSize
  }

  /** There is a next page exactly when the items before the following page do not exhaust the count. */
  lemma HasNextPageIff(items: seq<int>, page: int, pageSize: int, totalCount: nat)
    requires page >= 1 && pageSize >= 1
    ensures PaginatedResponse(items, page, pageSize, totalCount, TotalPages(totalCount, pageSize)).HasNextPage()
            <==> page * pageSize < totalCount
  {
    var r := TotalPages(totalCount, pageSize);
    if page < r {
      MulMonotone(page, r - 1, pageSize);
    } else {
      MulMonotone(r, page, pageSize);
    }
  }

  /** An example of `TotalPages` and `HasNextPageIff`: fifteen orders in pages of ten are page 1 of 2, with a next page and no previous one. */
  lemma FifteenInPagesOfTen(items: seq<int>)
    ensures var r := PaginatedResponse(items, 1, 10, 15, TotalPages(15, 10));
            r.totalPages == 2 && r.HasNextPage() && !r.HasPreviousPage()
  {
  }

  /** No orders: no pages, so page 1 has neither neighbour. */
  lemma NoOrdersNoPages(items: seq<int>, pageSize: int)
    requires pageSize >= 1
    ensures var r := PaginatedResponse(items, 1, pageSize, 0, TotalPages(0, pageSize));
            r.totalPages == 0 && !r.HasNextPage() && !r.HasPreviousPage()
  {
  }

  /** Position `k` (from zero) falls on page `k / pageSize + 1`. */
  lemma PageOfItem(k: nat, pageSize: int)
    requires pageSize >= 1
    ensures k / pageSize >= 0
    ensures FirstOnPage(k / pageSize + 1, pageSize) <= k < FirstOnPage(k / pageSize + 1, pageSize) + pageSize
  {
  }

  /** The page that starts at or before position `k` and ends after it is one of the pages. */
  lemma PageWithinTotal(k: nat, page: int, pageSize: int, totalCount: nat)
    requires page >= 1 && pageSize >= 1 && k < totalCount
    requires FirstOnPage(page, pageSize) <= k < FirstOnPage(page, pageSize) + pageSize
    ensures page <= TotalPages(totalCount, pageSize)
  {
    var r := TotalPages(totalCount, pageSize);
    if r < page {
      MulMonotone(r, page - 1, pageSize);
    }
  }
}
