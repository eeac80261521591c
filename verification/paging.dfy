/**
 * The paging state of a query as a value, and the navigation operations as
 * functions on it. A query is either not paged, paged by (index, size), or
 * restricted to a fixed range of rows; page navigation is defined only in the
 * paged mode and is rejected with `UnsupportedOperation` in the other two.
 */
module Paging {
  import opened Errors

  type Positive = n: int | n > 0 witness 1

  /** A page: its zero-based index and the number of rows it holds. */
  datatype Page = Page(index: nat, size: Positive)

  /** The three mutually exclusive paging modes of a query. */
  datatype Mode =
    | Unpaged
    | Paged(page: Page)
    | Ranged(startIndex: int, lastIndex: int)

  /** `r` is what a navigation operation answers in mode `m`: a value exactly
      when a page is set, `UnsupportedOperation` otherwise. */
  predicate GuardedByPage<T>(m: Mode, r: Result<T>)
  {
    (r.Ok? <==> m.Paged?) && (r.Err? ==> r.error == UnsupportedOperation)
  }

  // ---------------------------------------------------------------------------
  // Page arithmetic

  /** The number of pages of `size` rows needed to hold `count` rows: none
      for no rows, otherwise one page for the first `size` rows and as many
      as the remaining rows need. */
  function PagesFor(count: nat, size: Positive): (n: nat)
    ensures count <= n * size
    ensures n == 0 || (n - 1) * size < count
    decreases count
  {
    if count == 0 then 0
    else if count <= size then 1
    else 1 + PagesFor(count - size, size)
  }

  /** `a <= b` scales with a positive factor. */
  lemma MulMonotone(a: int, b: int, s: Positive)
    requires a <= b
    ensures a * s <= b * s
  {
    assert b * s - a * s == (b - a) * s;
  }

  /** The two bounds of `PagesFor` single out the ceiling: no other number of
      pages both covers `count` and leaves its last page non-empty. */
  lemma PagesForIsCeiling(count: nat, size: Positive, n: nat)
    requires count <= n * size
    requires n == 0 || (n - 1) * size < count
    ensures n == PagesFor(count, size)
  {
    var p := PagesFor(count, size);
    if n < p {
      MulMonotone(n, p - 1, size);
    } else if p < n {
      MulMonotone(p, n - 1, size);
    }
  }

  /** Every row lies on a page below the page count. */
  lemma RowLiesOnSomePage(count: nat, size: Positive, row: nat)
    requires row < count
    ensures row / size < PagesFor(count, size)
  {
    var n := PagesFor(count, size);
    if n <= row / size {
      assert (row / size) * size <= row;
      MulMonotone(n, row / size, size);
    }
  }

  /** The page count is the ceiling of count / size in closed form. */
  lemma PagesForIsCeilDiv(count: nat, size: Positive)
    ensures PagesFor(count, size) == (count + size - 1) / size
  {
    var n := (count + size - 1) / size;
    var rem := (count + size - 1) % size;
    assert n * size + rem == count + size - 1;
    assert (n - 1) * size == n * size - size;
    PagesForIsCeiling(count, size, n);
  }

  /** The index of the last page: the page count less one, and 0 when there
      are no rows at all. */
  function LastIndex(count: nat, size: Positive): (i: nat)
    ensures count <= (i + 1) * size
    ensures i == 0 || i * size < count
  {
    var n := PagesFor(count, size);
    if n == 0 then 0 else n - 1
  }

  /** Whether some row lies beyond the page `p`. */
  predicate HasNext(p: Page, count: nat)
  {
    (p.index + 1) * p.size < count
  }

  /** A page has a successor exactly when it comes before the last page. */
  lemma HasNextIffBeforeLast(p: Page, count: nat)
    ensures HasNext(p, count) <==> p.index < LastIndex(count, p.size)
  {
    var last := LastIndex(count, p.size);
    if p.index < last {
      MulMonotone(p.index + 1, last, p.size);
    } else {
      MulMonotone(last + 1, p.index + 1, p.size);
    }
  }

  // ---------------------------------------------------------------------------
  // Navigation, one function per operation of the query

  /** The current page, when one is set. */
  function CurrentPage(m: Mode): (r: Result<Page>)
    ensures GuardedByPage(m, r)
    ensures r.Ok? ==> m == Paged(r.value)
  {
    if m.Paged? then Ok(m.page) else Err(UnsupportedOperation)
  }

  /** Moves to the following page; the index is not bounded by the count. */
  function NextPage(m: Mode): (r: Result<Mode>)
    ensures GuardedByPage(m, r)
    ensures r.Ok? ==> r.value.Paged? && r.value.page.size == m.page.size
    ensures r.Ok? ==> r.value.page.index == m.page.index + 1
  {
    match m
    case Paged(p) => Ok(Paged(Page(p.index + 1, p.size)))
    case _ => Err(UnsupportedOperation)
  }

  /** Moves to the preceding page, staying on the first page when there is
      none before it. */
  function PreviousPage(m: Mode): (r: Result<Mode>)
    ensures GuardedByPage(m, r)
    ensures r.Ok? ==> r.value.Paged? && r.value.page.size == m.page.size
    ensures r.Ok? ==> r.value.page.index + 1 == m.page.index
                      || r.value.page.index == m.page.index == 0
  {
    match m
    case Paged(p) => Ok(Paged(Page(if p.index > 0 then p.index - 1 else 0, p.size)))
    case _ => Err(UnsupportedOperation)
  }

  /** Moves to the first page. */
  function FirstPage(m: Mode): (r: Result<Mode>)
    ensures GuardedByPage(m, r)
    ensures r.Ok? ==> r.value.Paged? && r.value.page.size == m.page.size
    ensures r.Ok? ==> r.value.page.index == 0
  {
    match m
    case Paged(p) => Ok(Paged(Page(0, p.size)))
    case _ => Err(UnsupportedOperation)
  }

  /** Moves to the last page for `count` rows: the page holding the last row,
      or the first page when there are no rows. */
  function LastPage(m: Mode, count: nat): (r: Result<Mode>)
    ensures GuardedByPage(m, r)
    ensures r.Ok? ==> r.value.Paged? && r.value.page.size == m.page.size
    ensures r.Ok? ==> count <= (r.value.page.index + 1) * m.page.size
    ensures r.Ok? ==> r.value.page.index == 0 || r.value.page.index * m.page.size < count
  {
    match m
    case Paged(p) => Ok(Paged(Page(LastIndex(count, p.size), p.size)))
    case _ => Err(UnsupportedOperation)
  }

  /** Whether a page follows the current one, given `count` rows. */
  function HasNextPage(m: Mode, count: nat): (r: Result<bool>)
    ensures GuardedByPage(m, r)
    ensures r.Ok? ==> (r.value <==> m.page.index < LastIndex(count, m.page.size))
  {
    match m
    case Paged(p) =>
      HasNextIffBeforeLast(p, count);
      Ok(HasNext(p, count))
    case _ => Err(UnsupportedOperation)
  }

  /** Whether a page precedes the current one; needs no count. */
  function HasPreviousPage(m: Mode): (r: Result<bool>)
    ensures GuardedByPage(m, r)
    ensures r.Ok? ==> (r.value <==> m.page.index > 0)
  {
    match m
    case Paged(p) => Ok(p.index > 0)
    case _ => Err(UnsupportedOperation)
  }

  /** The number of pages of the current size needed for `count` rows. */
  function PageCount(m: Mode, count: nat): (r: Result<nat>)
    ensures GuardedByPage(m, r)
    ensures r.Ok? ==> count <= r.value * m.page.size
    ensures r.Ok? ==> r.value == 0 || (r.value - 1) * m.page.size < count
  {
    match m
    case Paged(p) => Ok(PagesFor(count, p.size))
    case _ => Err(UnsupportedOperation)
  }

  // ---------------------------------------------------------------------------
  // Properties of navigation

  /** Without a page, or with a range, every navigation operation fails with
      `UnsupportedOperation`. */
  lemma NavigationNeedsPage(m: Mode, count: nat)
    requires !m.Paged?
    ensures NextPage(m) == Err(UnsupportedOperation)
    ensures PreviousPage(m) == Err(UnsupportedOperation)
    ensures FirstPage(m) == Err(UnsupportedOperation)
    ensures LastPage(m, count) == Err(UnsupportedOperation)
    ensures HasNextPage(m, count) == Err(UnsupportedOperation)
    ensures HasPreviousPage(m) == Err(UnsupportedOperation)
    ensures PageCount(m, count) == Err(UnsupportedOperation)
    ensures CurrentPage(m) == Err(UnsupportedOperation)
  {
  }

  /** Going back after going forward returns to the same page. */
  lemma PreviousUndoesNext(m: Mode)
    requires m.Paged?
    ensures PreviousPage(NextPage(m).value) == Ok(m)
  {
  }

  /** `hasPreviousPage` answers whether `previousPage` would move. */
  lemma HasPreviousIffPreviousMoves(m: Mode)
    requires m.Paged?
    ensures HasPreviousPage(m).value <==> PreviousPage(m).value != m
  {
  }

  /** The last page has no successor, and every earlier page of the same size
      has one. */
  lemma LastPageIsLast(m: Mode, count: nat)
    requires m.Paged?
    ensures HasNextPage(LastPage(m, count).value, count) == Ok(false)
    ensures forall i: nat :: i < LastPage(m, count).value.page.index ==>
              HasNextPage(Paged(Page(i, m.page.size)), count) == Ok(true)
  {
  }

  /** The last page is the page count less one (and 0 when that count is 0). */
  lemma LastPageMatchesPageCount(m: Mode, count: nat)
    requires m.Paged?
    ensures LastPage(m, count).value.page.index
            == if PageCount(m, count).value == 0 then 0 else PageCount(m, count).value - 1
  {
  }

  /** Moving to the first or the last page twice is the same as moving once. */
  lemma FirstAndLastAreIdempotent(m: Mode, count: nat)
    requires m.Paged?
    ensures FirstPage(FirstPage(m).value) == FirstPage(m)
    ensures LastPage(LastPage(m, count).value, count) == LastPage(m, count)
  {
  }
}
