/** The HTTP error values of apps/api/src/errors.ts.
    `HttpError` is a datatype: its fields are fixed when the value is made and
    cannot be reassigned, as the source's `readonly` fields are. The `details`
    payload is typed `unknown` in the source; here it is a type parameter. */
module Errors {
  import opened Wrappers

  datatype HttpError<+D> = HttpError(status: int, message: string, details: Option<D>)

  predicate IsClientError<D>(e: HttpError<D>) {
    400 <= e.status < 500
  }

  function BadRequest<D>(message: string, details: Option<D>): (e: HttpError<D>)
    ensures e.status == 400 && e.message == message && e.details == details
    ensures IsClientError(e)
  {
    HttpError(400, message, details)
  }

  function NotFound<D>(message: string): (e: HttpError<D>)
    ensures e.status == 404 && e.message == message && e.details.None?
    ensures IsClientError(e)
  {
    HttpError(404, message, None)
  }

  function Conflict<D>(message: string): (e: HttpError<D>)
    ensures e.status == 409 && e.message == message && e.details.None?
    ensures IsClientError(e)
  {
    HttpError(409, message, None)
  }

  function InternalError<D>(message: string, details: Option<D>): (e: HttpError<D>)
    ensures e.status == 500 && e.message == message && e.details == details
    ensures !IsClientError(e)
  {
    HttpError(500, message, details)
  }

  /** The four factories never produce the same error: the status alone tells
      which one made it, whatever the messages and details. */
  lemma FactoriesAreDistinguishable<D>(m1: string, m2: string, d1: Option<D>, d2: Option<D>)
    ensures BadRequest(m1, d1) != NotFound<D>(m2)
    ensures BadRequest(m1, d1) != Conflict<D>(m2)
    ensures BadRequest(m1, d1) != InternalError(m2, d2)
    ensures NotFound<D>(m1) != Conflict<D>(m2)
    ensures NotFound<D>(m1) != InternalError(m2, d2)
    ensures Conflict<D>(m1) != InternalError(m2, d2)
  {
  }
}
