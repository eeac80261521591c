# PanacheQuery paging cursor, in Dafny

This project models the query handle of Quarkus' Hibernate ORM Panache for
Kotlin, `PanacheQuery`. The handle holds paging state. That state is either no
page, a page `(index, size)`, or a fixed range `(startIndex, lastIndex)`. The
handle also stores a lock mode, a map of hints, and a total count that is read
from the database once and then cached. The mutators change the handle in place
and answer with the handle itself. Page navigation works only on a paged query;
with no page, or with a range, it fails with `UnsupportedOperation`. `project`
copies the state into a new, independent handle. `firstResult` and
`singleResult*` pick a row from the rows of the current window.

The source file is an interface: its documentation comments are the behaviour.
The model is an implementation of that interface, proved to meet it.

- `errors.dfy` (`Errors`): the exceptions, as the `Err` side of `Result`, and `Option` for nullable and `Optional` results.
- `paging.dfy` (`Paging`): the paging mode as a value. Each navigation operation is a function on it. The page count is the ceiling of count / size. The lemmas tie these together.
- `results.dfy` (`Results`): `firstResult`, `singleResult` and `singleResultOptional`, as functions over the rows the database returns.
- `query.dfy` (`Queries`): the class `PanacheQuery`. Its fields are changed in place by its methods. Each navigation method's contract ties its result and the new state to the functions of `Paging`. The other methods state their result and the new state directly against the state before the call.
- `scenarios.dfy` (`Scenarios`): clients that use only the contracts. They show behaviour that spans calls: count caching, independence after `project`, which error an invalid `page(index, size)` reports, paging again after a range, and 95 rows in pages of 10.

The database is a parameter. Each operation that reads the count takes, as
`database`, the count the database would report at that moment. Each
result-selection function takes the rows returned for the window.

Assumptions where the interface is silent:

- `page(index, size)` fails with `IllegalPageSize` for a size that is not positive, whatever the index. With a positive size, it fails with `IllegalPageIndex` for a negative index. In both cases the query is left as it was. The `Page` class is not part of this model, so a `Page` value here always has `index >= 0` and `size > 0`.
- `page(...)` after `range(...)` replaces the range with the page, and navigation works again. The interface says only that a range makes "subsequent pagination" impossible. Here that is read as: navigation fails while the range is in force.
- `pageCount` is the ceiling of count / size, so it is 0 when there are no rows. `lastPage` moves to index `max(0, pageCount - 1)`.
- `project` also copies the cached count. The interface says "the same state as the previous one" and ends its list with "...".

## Model

| member | source | states |
|---|---|---|
| Paging.PagesFor | extensions/panache/hibernate-orm-panache-kotlin/runtime/src/main/kotlin/io/quarkus/hibernate/orm/panache/kotlin/PanacheQuery.kt:105-112 | the page count covers every row (`count <= n * size`) and its last page is not empty (`(n - 1) * size < count` when `n > 0`) |
| Paging.PagesForIsCeiling | extensions/panache/hibernate-orm-panache-kotlin/runtime/src/main/kotlin/io/quarkus/hibernate/orm/panache/kotlin/PanacheQuery.kt:105-112 | those two bounds fix the page count uniquely: it is exactly the ceiling of count / size |
| Paging.PagesForIsCeilDiv | extensions/panache/hibernate-orm-panache-kotlin/runtime/src/main/kotlin/io/quarkus/hibernate/orm/panache/kotlin/PanacheQuery.kt:105-112 | the page count, counted page by page, equals `(count + size - 1) / size` |
| Paging.RowLiesOnSomePage | extensions/panache/hibernate-orm-panache-kotlin/runtime/src/main/kotlin/io/quarkus/hibernate/orm/panache/kotlin/PanacheQuery.kt:105-112 | every row `k < count` lies on a page whose index `k / size` is below the page count |
| Paging.LastIndex | extensions/panache/hibernate-orm-panache-kotlin/runtime/src/main/kotlin/io/quarkus/hibernate/orm/panache/kotlin/PanacheQuery.kt:75-83 | the last page reaches the last row (`count <= (i + 1) * size`) and starts before it, unless it is page 0 |
| Paging.HasNextIffBeforeLast | extensions/panache/hibernate-orm-panache-kotlin/runtime/src/main/kotlin/io/quarkus/hibernate/orm/panache/kotlin/PanacheQuery.kt:85-94 | `(index + 1) * size < count` holds exactly when the page comes before the last page |
| Paging.CurrentPage | extensions/panache/hibernate-orm-panache-kotlin/runtime/src/main/kotlin/io/quarkus/hibernate/orm/panache/kotlin/PanacheQuery.kt:114-122 | `page()` gives the page that is set; it fails with UnsupportedOperation exactly when no page is set or a range is set |
| Paging.NextPage | extensions/panache/hibernate-orm-panache-kotlin/runtime/src/main/kotlin/io/quarkus/hibernate/orm/panache/kotlin/PanacheQuery.kt:48-55 | the index grows by one and the size is kept; it fails with UnsupportedOperation exactly when not paged |
| Paging.PreviousPage | extensions/panache/hibernate-orm-panache-kotlin/runtime/src/main/kotlin/io/quarkus/hibernate/orm/panache/kotlin/PanacheQuery.kt:57-64 | the index drops by one, or stays at 0 on the first page; the size is kept; it fails exactly when not paged |
| Paging.FirstPage | extensions/panache/hibernate-orm-panache-kotlin/runtime/src/main/kotlin/io/quarkus/hibernate/orm/panache/kotlin/PanacheQuery.kt:66-73 | the index becomes 0 and the size is kept; it fails exactly when not paged |
| Paging.LastPage | extensions/panache/hibernate-orm-panache-kotlin/runtime/src/main/kotlin/io/quarkus/hibernate/orm/panache/kotlin/PanacheQuery.kt:75-83 | it moves to the page that holds the last of `count` rows (page 0 when there are none) and keeps the size; it fails exactly when not paged |
| Paging.HasNextPage | extensions/panache/hibernate-orm-panache-kotlin/runtime/src/main/kotlin/io/quarkus/hibernate/orm/panache/kotlin/PanacheQuery.kt:85-94 | true exactly when the current index is below the last page's index; it fails exactly when not paged |
| Paging.HasPreviousPage | extensions/panache/hibernate-orm-panache-kotlin/runtime/src/main/kotlin/io/quarkus/hibernate/orm/panache/kotlin/PanacheQuery.kt:96-103 | true exactly when the index is above 0, and it takes no count; it fails exactly when not paged |
| Paging.PageCount | extensions/panache/hibernate-orm-panache-kotlin/runtime/src/main/kotlin/io/quarkus/hibernate/orm/panache/kotlin/PanacheQuery.kt:105-112 | the number of pages of the current size that covers `count` rows with no empty last page; it fails exactly when not paged |
| Paging.NavigationNeedsPage | extensions/panache/hibernate-orm-panache-kotlin/runtime/src/main/kotlin/io/quarkus/hibernate/orm/panache/kotlin/PanacheQuery.kt:48-122 | with no page, or with a range, all eight navigation operations fail with UnsupportedOperation |
| Paging.PreviousUndoesNext | extensions/panache/hibernate-orm-panache-kotlin/runtime/src/main/kotlin/io/quarkus/hibernate/orm/panache/kotlin/PanacheQuery.kt:48-64 | previousPage after nextPage returns to the same page |
| Paging.HasPreviousIffPreviousMoves | extensions/panache/hibernate-orm-panache-kotlin/runtime/src/main/kotlin/io/quarkus/hibernate/orm/panache/kotlin/PanacheQuery.kt:57-103 | hasPreviousPage is true exactly when previousPage changes the page |
| Paging.LastPageIsLast | extensions/panache/hibernate-orm-panache-kotlin/runtime/src/main/kotlin/io/quarkus/hibernate/orm/panache/kotlin/PanacheQuery.kt:75-94 | after lastPage, hasNextPage is false; every page of the same size before it has a next page |
| Paging.LastPageMatchesPageCount | extensions/panache/hibernate-orm-panache-kotlin/runtime/src/main/kotlin/io/quarkus/hibernate/orm/panache/kotlin/PanacheQuery.kt:75-112 | the last page's index is `max(0, pageCount - 1)` |
| Paging.FirstAndLastAreIdempotent | extensions/panache/hibernate-orm-panache-kotlin/runtime/src/main/kotlin/io/quarkus/hibernate/orm/panache/kotlin/PanacheQuery.kt:66-83 | a second firstPage, or a second lastPage over the same count, changes nothing |
| Results.FirstResult | extensions/panache/hibernate-orm-panache-kotlin/runtime/src/main/kotlin/io/quarkus/hibernate/orm/panache/kotlin/PanacheQuery.kt:180-196 | the first row of the window, or nothing (null / empty optional) exactly when there are no rows |
| Results.SingleResult | extensions/panache/hibernate-orm-panache-kotlin/runtime/src/main/kotlin/io/quarkus/hibernate/orm/panache/kotlin/PanacheQuery.kt:198-206 | the row exactly when there is one; NoResult exactly on no rows; NonUniqueResult exactly on two or more |
| Results.SingleResultOptional | extensions/panache/hibernate-orm-panache-kotlin/runtime/src/main/kotlin/io/quarkus/hibernate/orm/panache/kotlin/PanacheQuery.kt:208-215 | empty exactly on no rows; the row exactly when there is one; NonUniqueResult exactly on two or more |
| Results.SingleOptionalAgreesWithSingle | extensions/panache/hibernate-orm-panache-kotlin/runtime/src/main/kotlin/io/quarkus/hibernate/orm/panache/kotlin/PanacheQuery.kt:198-215 | singleResultOptional is singleResult with NoResult turned into an empty optional |
| Results.SingleIsFirst | extensions/panache/hibernate-orm-panache-kotlin/runtime/src/main/kotlin/io/quarkus/hibernate/orm/panache/kotlin/PanacheQuery.kt:180-206 | when singleResult succeeds, firstResult gives the same row |
| Results.FirstResultIgnoresPageSize | extensions/panache/hibernate-orm-panache-kotlin/runtime/src/main/kotlin/io/quarkus/hibernate/orm/panache/kotlin/PanacheQuery.kt:180-182 | what the function itself guarantees toward this promise: FirstResult looks only at the first row, so truncating the rows to any positive length (a page of any size) gives the same answer; the window offset is not modelled |
| Queries.PanacheQuery.Project | extensions/panache/hibernate-orm-panache-kotlin/runtime/src/main/kotlin/io/quarkus/hibernate/orm/panache/kotlin/PanacheQuery.kt:19-25 | a fresh query with the same mode, lock mode, hints and cached count, which has not itself read the count; the source query is not changed |
| Queries.PanacheQuery.SetPage | extensions/panache/hibernate-orm-panache-kotlin/runtime/src/main/kotlin/io/quarkus/hibernate/orm/panache/kotlin/PanacheQuery.kt:27-35 | answers this query; `page()` then returns exactly the page set; nothing else changes |
| Queries.PanacheQuery.SetPageAt | extensions/panache/hibernate-orm-panache-kotlin/runtime/src/main/kotlin/io/quarkus/hibernate/orm/panache/kotlin/PanacheQuery.kt:37-46 | for a valid index and size, answers this query and `page()` returns exactly that index and size; a size that is not positive fails with IllegalPageSize whatever the index, a negative index with a positive size fails with IllegalPageIndex, and a failure changes nothing |
| Queries.PanacheQuery.Range | extensions/panache/hibernate-orm-panache-kotlin/runtime/src/main/kotlin/io/quarkus/hibernate/orm/panache/kotlin/PanacheQuery.kt:124-132 | answers this query, whose mode is now the range `(startIndex, lastIndex)`; nothing else changes |
| Queries.PanacheQuery.WithLock | extensions/panache/hibernate-orm-panache-kotlin/runtime/src/main/kotlin/io/quarkus/hibernate/orm/panache/kotlin/PanacheQuery.kt:134-140 | answers this query with the lock mode recorded; nothing else changes |
| Queries.PanacheQuery.WithHint | extensions/panache/hibernate-orm-panache-kotlin/runtime/src/main/kotlin/io/quarkus/hibernate/orm/panache/kotlin/PanacheQuery.kt:142-149 | answers this query, with the hint added or its value replaced; the other hints and the rest of the state are kept |
| Queries.PanacheQuery.Count | extensions/panache/hibernate-orm-panache-kotlin/runtime/src/main/kotlin/io/quarkus/hibernate/orm/panache/kotlin/PanacheQuery.kt:151-158 | the cached count if there is one, else the database's count, which is then cached; the database is asked only when nothing is cached |
| Queries.PanacheQuery.NextPage | extensions/panache/hibernate-orm-panache-kotlin/runtime/src/main/kotlin/io/quarkus/hibernate/orm/panache/kotlin/PanacheQuery.kt:48-55 | the mode becomes `Paging.NextPage` of the old mode and this query is answered; otherwise it fails with UnsupportedOperation and nothing changes |
| Queries.PanacheQuery.PreviousPage | extensions/panache/hibernate-orm-panache-kotlin/runtime/src/main/kotlin/io/quarkus/hibernate/orm/panache/kotlin/PanacheQuery.kt:57-64 | the mode becomes `Paging.PreviousPage` of the old mode; otherwise it fails and nothing changes |
| Queries.PanacheQuery.FirstPage | extensions/panache/hibernate-orm-panache-kotlin/runtime/src/main/kotlin/io/quarkus/hibernate/orm/panache/kotlin/PanacheQuery.kt:66-73 | the mode becomes `Paging.FirstPage` of the old mode; otherwise it fails and nothing changes |
| Queries.PanacheQuery.LastPage | extensions/panache/hibernate-orm-panache-kotlin/runtime/src/main/kotlin/io/quarkus/hibernate/orm/panache/kotlin/PanacheQuery.kt:75-83 | when paged, it reads the count through the cache and moves as `Paging.LastPage` does over that count; otherwise it fails without reading the count |
| Queries.PanacheQuery.HasNextPage | extensions/panache/hibernate-orm-panache-kotlin/runtime/src/main/kotlin/io/quarkus/hibernate/orm/panache/kotlin/PanacheQuery.kt:85-94 | answers `Paging.HasNextPage` over the cached or newly read count; it changes only the cache, and only when paged |
| Queries.PanacheQuery.HasPreviousPage | extensions/panache/hibernate-orm-panache-kotlin/runtime/src/main/kotlin/io/quarkus/hibernate/orm/panache/kotlin/PanacheQuery.kt:96-103 | answers `Paging.HasPreviousPage` of the mode; it changes nothing and reads no count |
| Queries.PanacheQuery.PageCount | extensions/panache/hibernate-orm-panache-kotlin/runtime/src/main/kotlin/io/quarkus/hibernate/orm/panache/kotlin/PanacheQuery.kt:105-112 | answers `Paging.PageCount` over the cached or newly read count; it changes only the cache, and only when paged |
| Queries.PanacheQuery.CurrentPage | extensions/panache/hibernate-orm-panache-kotlin/runtime/src/main/kotlin/io/quarkus/hibernate/orm/panache/kotlin/PanacheQuery.kt:114-122 | answers `Paging.CurrentPage` of the mode and changes nothing |
| Scenarios.CountIsReadOnce | extensions/panache/hibernate-orm-panache-kotlin/runtime/src/main/kotlin/io/quarkus/hibernate/orm/panache/kotlin/PanacheQuery.kt:151-158 | count, then nextPage, lastPage, pageCount and count again: both counts are the first database answer, pageCount uses it, and the database is asked once |
| Scenarios.FailedLastPageReadsNoCount | extensions/panache/hibernate-orm-panache-kotlin/runtime/src/main/kotlin/io/quarkus/hibernate/orm/panache/kotlin/PanacheQuery.kt:75-83 | lastPage on a query with no page fails with UnsupportedOperation and leaves the count unread, so a later count answers what the database says then |
| Scenarios.ProjectionIsIndependent | extensions/panache/hibernate-orm-panache-kotlin/runtime/src/main/kotlin/io/quarkus/hibernate/orm/panache/kotlin/PanacheQuery.kt:13-25 | after projecting, a range set on the projection and a lock set on the source each change only their own query |
| Scenarios.InvalidSizeWinsOverIndex | extensions/panache/hibernate-orm-panache-kotlin/runtime/src/main/kotlin/io/quarkus/hibernate/orm/panache/kotlin/PanacheQuery.kt:37-46 | page(-1, 0) fails with IllegalPageSize and page(-1, 5) with IllegalPageIndex, and after both the query is still on the page set before them |
| Scenarios.PageAfterRange | extensions/panache/hibernate-orm-panache-kotlin/runtime/src/main/kotlin/io/quarkus/hibernate/orm/panache/kotlin/PanacheQuery.kt:124-132 | after a range, nextPage fails with UnsupportedOperation; after a page is set again, nextPage succeeds |
| Scenarios.NinetyFiveRows | extensions/panache/hibernate-orm-panache-kotlin/runtime/src/main/kotlin/io/quarkus/hibernate/orm/panache/kotlin/PanacheQuery.kt:75-112 | 95 rows in pages of 10: pageCount is 10, lastPage is index 9, hasNextPage is false there and true at index 8 |

## Left out

- `list()` and `stream()`: running the query, materialising rows, the laziness of a stream and releasing its database cursor. These belong to the persistence layer. The rows are a parameter of the result-selection functions.
- The window handed to the database (offset `index * size`, limit `size`, or the range's bounds). The model takes the rows the database returns for that window; it does not compute the window.
- The `SELECT COUNT(*)` query itself. Its answer is the `database` parameter of the count-reading operations.
- The field and getter selection that `project` performs, and its `Class` argument. Only the copy of the paging, lock, hint and count state is modelled.
- What lock modes and hint values mean. They are stored and kept, never interpreted.
- Queries.PanacheQuery.Range: the range bounds are stored as given, and nothing is checked. The interface states no condition on them, and the persistence layer that would reject bad bounds is not part of this model.
- Kotlin `Int` and `Long` widths. Indices, sizes and counts are unbounded integers, so `nextPage` at the largest `Int` and products such as `(index + 1) * size` do not wrap around.
- `firstResult` and `firstResultOptional` are one function, `Results.FirstResult`. They differ only in whether "no row" is a null or an empty `Optional`.
- The `Page` class is not part of this model. The index and size checks made by `page(index, size)` follow the assumptions listed above.
- Sharing of one handle between threads. The handle is used sequentially.
