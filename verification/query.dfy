/**
 * The query handle: its paging mode, lock mode and hints are changed in place
 * by the mutators, each of which answers with the handle itself; the total
 * count is read from the database once and then cached.
 *
 * The database is not modelled: each operation that needs the count takes as
 * `database` the number of rows the database would report at that moment.
 */
module Queries {
  import opened Errors
  import opened Paging

  /** The locking strategies of the persistence layer, stored and passed on
      but never interpreted here. */
  datatype LockModeType =
    | NoLock | Read | Write | Optimistic | OptimisticForceIncrement
    | PessimisticRead | PessimisticWrite | PessimisticForceIncrement

  /** Everything a query carries besides its compiled statement. */
  datatype Cursor<V> = Cursor(
    mode: Mode,
    lockMode: Option<LockModeType>,
    hints: map<string, V>,
    cachedCount: Option<nat>)

  /** A query over `Entity`, with hint values of type `V`. */
  class PanacheQuery<Entity, V> {
    var mode: Mode
    var lockMode: Option<LockModeType>
    var hints: map<string, V>
    var cachedCount: Option<nat>
    /** How many times this handle has asked the database for the count. */
    ghost var countReads: nat

    /** The count is read at most once, and only an empty cache has not
        been read by this handle. */
    ghost predicate Valid()
      reads this
    {
      countReads <= 1 && (cachedCount.None? ==> countReads == 0)
    }

    function State(): Cursor<V>
      reads this
    {
      Cursor(mode, lockMode, hints, cachedCount)
    }

    /** A fresh query: no page, no range, no lock mode, no hints, no count. */
    constructor ()
      ensures Valid() && countReads == 0
      ensures State() == Cursor(Unpaged, None, map[], None)
    {
      mode, lockMode, hints, cachedCount := Unpaged, None, map[], None;
      countReads := 0;
    }

    /** A query with a copy of `state`, which has not itself read the count. */
    constructor Copy(state: Cursor<V>)
      ensures Valid() && countReads == 0
      ensures State() == state
    {
      mode, lockMode, hints, cachedCount := state.mode, state.lockMode, state.hints, state.cachedCount;
      countReads := 0;
    }

    /** project: a new query with the same paging, lock mode, hints and
        cached count; this query is left as it was. */
    method Project<E2>() returns (q: PanacheQuery<E2, V>)
      ensures fresh(q) && q.Valid() && q.countReads == 0
      ensures q.State() == State()
    {
      q := new PanacheQuery<E2, V>.Copy(State());
    }

    /** page(page): sets the page, in whatever mode the query was. */
    method SetPage(page: Page) returns (q: PanacheQuery<Entity, V>)
      requires Valid()
      modifies this
      ensures Valid() && q == this && countReads == old(countReads)
      ensures State() == old(State()).(mode := Paged(page))
      ensures Paging.CurrentPage(mode) == Ok(page)
    {
      mode := Paged(page);
      q := this;
    }

    /** page(pageIndex, pageSize): as page(page), after checking that the
        size and then the index make a page; an invalid pair changes nothing,
        and a size that is not positive is reported whatever the index. */
    method SetPageAt(pageIndex: int, pageSize: int) returns (r: Result<PanacheQuery<Entity, V>>)
      requires Valid()
      modifies this
      ensures Valid() && countReads == old(countReads)
      ensures pageSize <= 0 ==> r == Err(IllegalPageSize)
      ensures pageSize > 0 && pageIndex < 0 ==> r == Err(IllegalPageIndex)
      ensures r.Ok? <==> pageIndex >= 0 && pageSize > 0
      ensures r.Ok? ==> r.value == this && Paging.CurrentPage(mode) == Ok(Page(pageIndex, pageSize))
      ensures State() == if r.Ok? then old(State()).(mode := mode) else old(State())
    {
      if pageSize <= 0 {
        r := Err(IllegalPageSize);
      } else if pageIndex < 0 {
        r := Err(IllegalPageIndex);
      } else {
        var q := SetPage(Page(pageIndex, pageSize));
        r := Ok(q);
      }
    }

    /** range(startIndex, lastIndex): replaces any page with a fixed range. */
    method Range(startIndex: int, lastIndex: int) returns (q: PanacheQuery<Entity, V>)
      requires Valid()
      modifies this
      ensures Valid() && q == this && countReads == old(countReads)
      ensures State() == old(State()).(mode := Ranged(startIndex, lastIndex))
    {
      mode := Ranged(startIndex, lastIndex);
      q := this;
    }

    /** withLock: records the lock mode. */
    method WithLock(lockModeType: LockModeType) returns (q: PanacheQuery<Entity, V>)
      requires Valid()
      modifies this
      ensures Valid() && q == this && countReads == old(countReads)
      ensures State() == old(State()).(lockMode := Some(lockModeType))
    {
      lockMode := Some(lockModeType);
      q := this;
    }

    /** withHint: adds the hint, or replaces the value of a hint of that name. */
    method WithHint(hintName: string, value: V) returns (q: PanacheQuery<Entity, V>)
      requires Valid()
      modifies this
      ensures Valid() && q == this && countReads == old(countReads)
      ensures State() == old(State()).(hints := old(hints)[hintName := value])
    {
      hints := hints[hintName := value];
      q := this;
    }

    /** count: the cached count if there is one; otherwise `database`, which
        becomes the cached count. */
    method Count(database: nat) returns (c: nat)
      requires Valid()
      modifies this
      ensures Valid()
      ensures c == if old(cachedCount).Some? then old(cachedCount).value else database
      ensures State() == old(State()).(cachedCount := Some(c))
      ensures countReads == old(countReads) + if old(cachedCount).None? then 1 else 0
    {
      if cachedCount.None? {
        cachedCount := Some(database);
        countReads := countReads + 1;
      }
      c := cachedCount.value;
    }

    /** The effect of a navigation step `next` on the query: on success the
        new mode and this query, on failure nothing changed and the error. */
    ghost predicate Navigated(r: Result<PanacheQuery<Entity, V>>, next: Result<Mode>, before: Cursor<V>)
      reads this
    {
      match next
      case Ok(m) => r == Ok(this) && State() == before.(mode := m)
      case Err(e) => r == Err(e) && State() == before
    }

    /** Applies a navigation step computed by `Paging`: on success the new
        mode is stored and this query answered, on failure nothing changes. */
    method Apply(next: Result<Mode>) returns (r: Result<PanacheQuery<Entity, V>>)
      modifies this`mode
      ensures Navigated(r, next, old(State()))
    {
      if next.Ok? {
        mode := next.value;
        r := Ok(this);
      } else {
        r := Err(next.error);
      }
    }

    /** nextPage */
    method NextPage() returns (r: Result<PanacheQuery<Entity, V>>)
      requires Valid()
      modifies this
      ensures Valid() && countReads == old(countReads)
      ensures Navigated(r, Paging.NextPage(old(mode)), old(State()))
    {
      r := Apply(Paging.NextPage(mode));
    }

    /** previousPage */
    method PreviousPage() returns (r: Result<PanacheQuery<Entity, V>>)
      requires Valid()
      modifies this
      ensures Valid() && countReads == old(countReads)
      ensures Navigated(r, Paging.PreviousPage(old(mode)), old(State()))
    {
      r := Apply(Paging.PreviousPage(mode));
    }

    /** firstPage */
    method FirstPage() returns (r: Result<PanacheQuery<Entity, V>>)
      requires Valid()
      modifies this
      ensures Valid() && countReads == old(countReads)
      ensures Navigated(r, Paging.FirstPage(old(mode)), old(State()))
    {
      r := Apply(Paging.FirstPage(mode));
    }

    /** lastPage: reads the count (through the cache) when a page is set. */
    method LastPage(database: nat) returns (r: Result<PanacheQuery<Entity, V>>)
      requires Valid()
      modifies this
      ensures Valid()
      ensures cachedCount == if old(mode).Paged? then Some(old(CountOr(database))) else old(cachedCount)
      ensures Navigated(r, Paging.LastPage(old(mode), old(CountOr(database))),
                        old(State()).(cachedCount := cachedCount))
      ensures countReads == old(countReads) + if old(mode).Paged? && old(cachedCount).None? then 1 else 0
    {
      if mode.Paged? {
        var c := Count(database);
        r := Apply(Paging.LastPage(mode, c));
      } else {
        r := Err(UnsupportedOperation);
      }
    }

    /** hasNextPage: reads the count (through the cache) when a page is set. */
    method HasNextPage(database: nat) returns (r: Result<bool>)
      requires Valid()
      modifies this
      ensures Valid()
      ensures r == Paging.HasNextPage(old(mode), old(CountOr(database)))
      ensures State() == old(State()).(cachedCount :=
                if old(mode).Paged? then Some(old(CountOr(database))) else old(cachedCount))
      ensures countReads == old(countReads) + if old(mode).Paged? && old(cachedCount).None? then 1 else 0
    {
      if mode.Paged? {
        var c := Count(database);
        r := Paging.HasNextPage(mode, c);
      } else {
        r := Err(UnsupportedOperation);
      }
    }

    /** hasPreviousPage: never reads the count. */
    method HasPreviousPage() returns (r: Result<bool>)
      ensures r == Paging.HasPreviousPage(mode)
    {
      r := Paging.HasPreviousPage(mode);
    }

    /** pageCount: reads the count (through the cache) when a page is set. */
    method PageCount(database: nat) returns (r: Result<nat>)
      requires Valid()
      modifies this
      ensures Valid()
      ensures r == Paging.PageCount(old(mode), old(CountOr(database)))
      ensures State() == old(State()).(cachedCount :=
                if old(mode).Paged? then Some(old(CountOr(database))) else old(cachedCount))
      ensures countReads == old(countReads) + if old(mode).Paged? && old(cachedCount).None? then 1 else 0
    {
      if mode.Paged? {
        var c := Count(database);
        r := Paging.PageCount(mode, c);
      } else {
        r := Err(UnsupportedOperation);
      }
    }

    /** page(): the current page. */
    method CurrentPage() returns (r: Result<Page>)
      ensures r == Paging.CurrentPage(mode)
    {
      r := Paging.CurrentPage(mode);
    }

    /** The count `count()` would answer now, given what the database says. */
    function CountOr(database: nat): nat
      reads this
    {
      if cachedCount.Some? then cachedCount.value else database
    }
  }
}
