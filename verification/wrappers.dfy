/** Failure-carrying results for the repository's terminal operations.

    Every exception the modelled code can raise on a read path becomes an
    `Error` value: the argument checks of the paging helper, the cardinality
    failures of First/Single, the duplicate-key failure of dictionary
    construction, and the two invalid-cast failures.
 */
module Wrappers {

  datatype Option<+T> = None | Some(value: T)

  datatype Result<+R> = Success(value: R) | Failure(error: Error)

  /** The exceptions a read can surface, without their message text. */
  datatype Error =
    /** ArgumentException thrown by the paging helper; `param` is its parameter name. */
    | InvalidArgument(param: string)
    /** "Sequence contains no elements" from First/Single. */
    | NoElements
    /** "Sequence contains more than one element" from Single/SingleOrDefault. */
    | MoreThanOneElement
    /** ArgumentException from dictionary construction when a key repeats. */
    | DuplicateKey
    /** InvalidOperationException("Unable to cast transformation") from the typed Order.Apply. */
    | UnableToCastTransformation
    /** InvalidOperationException from projecting a query that is no longer a Mongo queryable. */
    | NotMongoQueryable
}
