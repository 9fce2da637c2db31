/** Shared vocabulary: optional values, results, the HTTP errors the services raise,
    and the clock arithmetic the board service applies. */
module Common {

  datatype Option<T> = None | Some(value: T)

  /** A service call either returns a value or throws one of the errors below. */
  datatype Result<T> = Ok(value: T) | Err(error: Error)

  /** The exception classes the services throw. */
  datatype Status = BadRequest | Unauthorized | NotFound | InternalServerError | BadGateway

  /** Which check raised the error: one constructor per reachable check. The guards on
      "no row affected" after the close, reopen, edit and photo delete are not listed: the
      board service proves them unreachable. */
  datatype Reason =
    | BoardMissing        // the board to act on does not exist (or is soft-deleted)
    | NotAuthor           // the requester did not write the board
    | AlreadyClosed       // closing a board that is already closed
    | ClosedByTime        // reopening a board whose deadline has passed
    | StillOpen           // reopening a board that is not closed
    | PhotoRequired       // no photo list was uploaded
    | CategoryMissing
    | AreaMissing
    | PeriodRejected      // the new deadline is not in the future
    | BoardInsertFailed   // the board insert affected no row
    | PhotoInsertFailed   // fewer photo rows were saved than requested
    | HitFlushFailed      // the bulk hit update was rejected by the store
    | ReportedBoardMissing
    | ReportedUserMissing
    | ReporterMissing
    | RouteMissing        // a report head other than 'board' or 'user'
    | ReportSaveFailed    // the report insert affected no row
    | CategoryQueryFailed // the category listing query found no category row

  datatype Error = Error(status: Status, reason: Reason)

  /** Milliseconds, the unit of a JavaScript Date. */
  const HourMs: int := 60 * 60 * 1000
  const DayMs: int := 24 * HourMs

  /** The services shift the server clock by a fixed +9 hours (Korean time)
      before comparing it with stored deadlines. */
  function KoreaTime(now: int): (t: int)
    ensures t - now == 9 * HourMs
  {
    now + 9 * HourMs
  }

  /** `d.setDate(d.getDate() + days)`, taken as exactly `days` whole days. */
  function AddDays(t: int, days: int): (r: int)
    ensures days > 0 ==> r > t
    ensures days == 0 ==> r == t
    ensures days < 0 ==> r < t
  {
    t + days * DayMs
  }
}
