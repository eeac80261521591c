/**
 * Selecting one result from the rows the database returns for the current
 * window of a query. `rows` is the database's answer, in order; how it is
 * produced is outside this model.
 */
module Results {
  import opened Errors

  /** firstResult and firstResultOptional: the first row, or nothing when
      there are no rows. The query asks for a single row at the start of the
      window, whatever the page size. */
  function FirstResult<E>(rows: seq<E>): (r: Option<E>)
    ensures r.None? <==> rows == []
    ensures r.Some? ==> r.value == rows[0]
  {
    if rows == [] then None else Some(rows[0])
  }

  /** singleResult: the row when there is exactly one; `NoResult` on none and
      `NonUniqueResult` on two or more. */
  function SingleResult<E>(rows: seq<E>): (r: Result<E>)
    ensures r.Ok? <==> |rows| == 1
    ensures r.Ok? ==> r.value == rows[0]
    ensures r == Err(NoResult) <==> rows == []
    ensures r == Err(NonUniqueResult) <==> |rows| >= 2
  {
    if |rows| == 0 then Err(NoResult)
    else if |rows| == 1 then Ok(rows[0])
    else Err(NonUniqueResult)
  }

  /** singleResultOptional: as singleResult, except that no rows give an
      empty optional instead of an error. */
  function SingleResultOptional<E>(rows: seq<E>): (r: Result<Option<E>>)
    ensures r == Ok(None) <==> rows == []
    ensures r.Ok? && r.value.Some? <==> |rows| == 1
    ensures r.Ok? && r.value.Some? ==> r.value.value == rows[0]
    ensures r.Err? <==> |rows| >= 2
    ensures r.Err? ==> r.error == NonUniqueResult
  {
    if |rows| == 0 then Ok(None)
    else if |rows| == 1 then Ok(Some(rows[0]))
    else Err(NonUniqueResult)
  }

  /** singleResultOptional differs from singleResult only on no rows. */
  lemma SingleOptionalAgreesWithSingle<E>(rows: seq<E>)
    ensures SingleResultOptional(rows) ==
            match SingleResult(rows)
            case Ok(x) => Ok(Some(x))
            case Err(NoResult) => Ok(None)
            case Err(e) => Err(e)
  {
  }

  /** When there is a single result, it is also the first result. */
  lemma SingleIsFirst<E>(rows: seq<E>)
    requires SingleResult(rows).Ok?
    ensures FirstResult(rows) == Some(SingleResult(rows).value)
  {
  }

  /** The first result does not depend on how many rows the window holds
      beyond the first: cutting the rows to any positive length keeps it. */
  lemma FirstResultIgnoresPageSize<E>(rows: seq<E>, size: nat)
    requires size > 0
    ensures FirstResult(rows[..if size < |rows| then size else |rows|]) == FirstResult(rows)
  {
  }
}
