/**
 * Clients of `PanacheQuery` that rely on its contracts alone, showing the
 * behaviour that spans several calls: the cached count, the independence of
 * a projected query, and navigation across a fixed count of rows.
 */
module Scenarios {
  import opened Errors
  import opened Paging
  import opened Queries

  /** Once read, the count no longer follows the database: paging between
      reads leaves it as it was, and the database is asked only once. */
  method CountIsReadOnce<E, V>(q: PanacheQuery<E, V>, first: nat, second: nat, third: nat)
    returns (before: nat, pages: Result<nat>, after: nat)
    requires q.Valid() && q.mode.Paged? && q.cachedCount.None?
    modifies q
    ensures before == first && after == first
    ensures pages == Ok(PagesFor(first, old(q.mode).page.size))
    ensures q.countReads == 1
  {
    before := q.Count(first);
    var _ := q.NextPage();
    var _ := q.LastPage(second);
    pages := q.PageCount(second);
    after := q.Count(third);
  }

  /** A lastPage that fails for want of a page does not read the count: the
      first successful count afterwards is the database's answer then. */
  method FailedLastPageReadsNoCount(first: nat, second: nat) returns (r: Result<PanacheQuery<int, int>>, c: nat)
    ensures r == Err(UnsupportedOperation)
    ensures c == second
  {
    var q := new PanacheQuery<int, int>();
    r := q.LastPage(first);
    c := q.Count(second);
  }

  /** A projected query starts from the same state, and changing either
      query afterwards leaves the other untouched. */
  method ProjectionIsIndependent<E, V>(q: PanacheQuery<E, V>) returns (p: PanacheQuery<int, V>)
    requires q.Valid()
    modifies q
    ensures fresh(p) && p.Valid()
    ensures p.State() == old(q.State()).(mode := Ranged(0, 9))
    ensures q.State() == old(q.State()).(lockMode := Some(PessimisticWrite))
  {
    p := q.Project<int>();
    var _ := p.Range(0, 9);
    var _ := q.WithLock(PessimisticWrite);
  }

  /** A page size of 0 is reported even when the index is negative too, and
      neither rejected call moves the query off its page. */
  method InvalidSizeWinsOverIndex() returns (both: Error, indexOnly: Error, current: Result<Page>)
    ensures both == IllegalPageSize && indexOnly == IllegalPageIndex
    ensures current == Ok(Page(2, 5))
  {
    var q := new PanacheQuery<int, int>();
    var _ := q.SetPage(Page(2, 5));
    var r1 := q.SetPageAt(-1, 0);
    var r2 := q.SetPageAt(-1, 5);
    both, indexOnly := r1.error, r2.error;
    current := q.CurrentPage();
  }

  /** A range disables navigation until a page is set again. */
  method PageAfterRange<E, V>(q: PanacheQuery<E, V>) returns (ranged: Result<PanacheQuery<E, V>>, paged: Result<PanacheQuery<E, V>>)
    requires q.Valid()
    modifies q
    ensures ranged == Err(UnsupportedOperation)
    ensures paged == Ok(q) && q.mode == Paged(Page(1, 20))
  {
    var _ := q.Range(5, 9);
    ranged := q.NextPage();
    var _ := q.SetPage(Page(0, 20));
    paged := q.NextPage();
  }

  /** 95 rows in pages of 10: ten pages; the last, at index 9, has no next
      page, and the one before it has. */
  method NinetyFiveRows() returns (pages: Result<nat>, last: Result<Page>, atLast: Result<bool>, beforeLast: Result<bool>)
    ensures pages == Ok(10)
    ensures last == Ok(Page(9, 10))
    ensures atLast == Ok(false) && beforeLast == Ok(true)
  {
    var q := new PanacheQuery<int, int>();
    var _ := q.SetPageAt(0, 10);
    pages := q.PageCount(95);
    var _ := q.LastPage(0);
    last := q.CurrentPage();
    atLast := q.HasNextPage(0);
    var _ := q.PreviousPage();
    beforeLast := q.HasNextPage(0);
  }
}
