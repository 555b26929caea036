/** The query client's default options that decide behaviour the model keeps: when a failed
    query is retried, and that mutations are never retried. */
module Providers {

  import opened Wrappers

  const MaxFailures: nat := 3

  /** What the retry rule can see of an error: whether it is an `Error`, and the `status` it
      carries, if it has one. */
  datatype QueryError = QueryError(isError: bool, status: Option<int>)

  /** An `Error` carrying a status from 400 to 499. */
  predicate IsClientError(e: QueryError) {
    e.isError && e.status.Some? && 400 <= e.status.value < 500
  }

  /** The query `retry` rule: never after a client error, otherwise while fewer than three
      failures have happened. */
  function ShouldRetry(failureCount: nat, e: QueryError): (r: bool)
    ensures IsClientError(e) ==> !r
    ensures !IsClientError(e) ==> (r <==> failureCount < MaxFailures)
  {
    if e.isError && e.status.Some? && e.status.value >= 400 && e.status.value < 500 then false
    else failureCount < MaxFailures
  }

  /** The mutation `retry` option. */
  const RetryMutations: bool := false

  /** A query is retried at most three times whatever the error, and the count of failures that
      stops it does not depend on the error once it is not a client error. */
  lemma RetriesBounded(failureCount: nat, e: QueryError, other: QueryError)
    ensures failureCount >= MaxFailures ==> !ShouldRetry(failureCount, e)
    ensures !IsClientError(e) && !IsClientError(other) ==> ShouldRetry(failureCount, e) == ShouldRetry(failureCount, other)
  {
  }
}
