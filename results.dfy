/** Error values and the (value, error) pairs that the estimator's Go
    functions return, as datatypes. */
module Results {

  /** The errors the estimator reports. `External` carries an error produced
      by a collaborator outside the model (the wal-g process, the network
      decoder, the database server) and is passed on unchanged. */
  datatype Error =
    | External(message: string)
    | BadTimestamp(value: string)        // time.Parse rejected the text
    | BackupNotFound(name: string)       // "backup %s not found"
    | SystemIdentifierMismatch           // "system identifiers do not match"
    | TimelineMismatch(destination: int, ours: int)
                                         // "destination is on timeline %v, but we are on %v"

  /** A Go `(T, error)` pair where exactly one side is meaningful. */
  datatype Result<+T> = Ok(value: T) | Err(error: Error)

  /** A Go function that returns only an `error`. */
  datatype Outcome = Pass | Fail(error: Error)
}
