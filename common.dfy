/** Shared vocabulary of the paint-order service: optional values, results,
    the repository's error kinds, time, and the request status strings. */
module Common {

  datatype Option<+T> = None | Some(value: T)

  datatype Result<+T> = Ok(value: T) | Err(error: Error) {
    predicate IsFailure() { Err? }
  }

  /** The repository's errors. The first four are the package-level sentinels
      (compared with errors.Is by the handlers); `Invalid` carries the text of an
      input-validation error built with errors.New or fmt.Errorf; `RecordNotFound`
      is the ORM's own not-found error passed through unwrapped; `Store` is a
      failure reported by the database, the object store or the key-value store. */
  datatype Error =
    | NotFound
    | AlreadyExists
    | NotAllowed
    | NoDraft
    | Invalid(msg: string)
    | RecordNotFound
    | Store(msg: string)

  /** Instants and durations in nanoseconds, as Go's time.Time / time.Duration. */
  type Time = int
  type Duration = int

  const Second: Duration := 1_000_000_000
  const Hour: Duration := 3600 * Second

  /** Go's zero time.Time (0001-01-01 UTC), which time.Time.IsZero tests for. */
  const ZeroTime: Time := -62135596800 * Second

  /** The five request statuses, stored as literal strings. */
  const Draft: string := "черновик"
  const Formed: string := "сформирована"
  const Completed: string := "завершена"
  const Rejected: string := "отклонена"
  const Deleted: string := "удалён"
}
