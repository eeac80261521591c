/**
 * Outcomes of query operations. The exceptions a query can raise become the
 * `Err` side of `Result`; a nullable or `Optional` value becomes `Option`.
 */
module Errors {

  /** The exceptions the query contract names, one constructor each. */
  datatype Error =
    | UnsupportedOperation  // page navigation without a page, or after a range
    | IllegalPageIndex      // a page with a negative index
    | IllegalPageSize       // a page with a size that is not positive
    | NoResult              // singleResult on zero rows
    | NonUniqueResult       // singleResult or singleResultOptional on two or more rows

  datatype Result<+T> = Ok(value: T) | Err(error: Error)

  datatype Option<+T> = None | Some(value: T)
}
