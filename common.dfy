/** Shared vocabulary of both service generations: optional values (the source's
    nullable references), identifiers, and time with the source's constants. */
module Common {

  /** A nullable value (`string?`, `DateTime?` in the source). */
  datatype Option<+T> = None | Some(value: T)

  /** A row key (`Guid` in the source). Fresh keys are supplied by the caller. */
  type Guid = nat

  /** A point in time, in seconds since `DateTime.MinValue`. */
  type Time = nat

  /** `DateTime.MinValue`. */
  const MinTime: Time := 0

  const SecondsPerHour: nat := 3600
  const SecondsPerDay: nat := 24 * SecondsPerHour

  /** `DateTime.UtcNow.AddDays(7)`: lifetime of a refresh token in both services. */
  const RefreshTokenLifetime: nat := 7 * SecondsPerDay

  /** `a < b` on a `DateTime?` and a `DateTime`: C#'s lifted comparison is false when `a` is null. */
  predicate LiftedLess(a: Option<Time>, b: Time)
  {
    a.Some? && a.value < b
  }

  /** `a <= b` on a `DateTime?` and a `DateTime`: false when `a` is null. */
  predicate LiftedAtMost(a: Option<Time>, b: Time)
  {
    a.Some? && a.value <= b
  }
}
