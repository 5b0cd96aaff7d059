/**
 The four business-rule failures the user service raises, with the message
 each carries, and the result types its operations return instead of
 throwing.
 */
module ServiceErrors {
  import opened Decimal

  datatype ServiceError =
    | EmailAlreadyExists(email: string)
    | UserLowAge(minAge: int)
    | UserNotFound(id: int)
    | InvalidDateRange

  datatype Result<T> = Success(value: T) | Failure(error: ServiceError)

  /** The outcome of an operation that returns nothing on success. */
  datatype Outcome = Done | Fail(error: ServiceError)

  const EMAIL_EXISTS_PREFIX: string := "This email already exists: "
  const LOW_AGE_PREFIX: string := "User must be at least "
  const LOW_AGE_SUFFIX: string := " years old."
  const NOT_FOUND_PREFIX: string := "User with ID: "
  const NOT_FOUND_SUFFIX: string := " was not found"
  const INVALID_RANGE_MESSAGE: string := "Start date must be before end date"

  /** The exception message: it names the email, the minimum age or the id. */
  function Message(e: ServiceError): (m: string)
    ensures e.EmailAlreadyExists? ==>
      |m| >= |EMAIL_EXISTS_PREFIX| && m[|EMAIL_EXISTS_PREFIX|..] == e.email
    ensures e.UserNotFound? ==>
      |m| >= |NOT_FOUND_PREFIX| + |NOT_FOUND_SUFFIX|
      && m[|NOT_FOUND_PREFIX|..|m| - |NOT_FOUND_SUFFIX|] == IntToString(e.id)
    ensures e.UserLowAge? ==>
      |m| >= |LOW_AGE_PREFIX| + |LOW_AGE_SUFFIX|
      && m[|LOW_AGE_PREFIX|..|m| - |LOW_AGE_SUFFIX|] == IntToString(e.minAge)
    ensures |m| > 0
  {
    match e
    case EmailAlreadyExists(email) => EMAIL_EXISTS_PREFIX + email
    case UserLowAge(minAge) => LOW_AGE_PREFIX + IntToString(minAge) + LOW_AGE_SUFFIX
    case UserNotFound(id) => NOT_FOUND_PREFIX + IntToString(id) + NOT_FOUND_SUFFIX
    case InvalidDateRange => INVALID_RANGE_MESSAGE
  }

  /** The not-found message identifies the id that was asked for. */
  lemma NotFoundMessageNamesId(a: int, b: int)
    ensures Message(UserNotFound(a)) == Message(UserNotFound(b)) ==> a == b
  {
    if Message(UserNotFound(a)) == Message(UserNotFound(b)) {
      IntToStringInjective(a, b);
    }
  }

  /** The low-age message identifies the configured minimum age. */
  lemma LowAgeMessageNamesMinAge(a: int, b: int)
    ensures Message(UserLowAge(a)) == Message(UserLowAge(b)) ==> a == b
  {
    if Message(UserLowAge(a)) == Message(UserLowAge(b)) {
      IntToStringInjective(a, b);
    }
  }

  /** The email message identifies the email that was rejected. */
  lemma EmailMessageNamesEmail(a: string, b: string)
    ensures Message(EmailAlreadyExists(a)) == Message(EmailAlreadyExists(b)) ==> a == b
  {
  }
}
