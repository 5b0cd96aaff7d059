# User service model

A Dafny model of the business-rule layer of a small user-management REST
service. The service owns a table of user profiles (email, first and last
name, birth date, address, phone number) keyed by a store-assigned id, and
offers five operations on it:

- **createUser** rejects an email that some stored user already has, then
  rejects a user younger than the configured `minAge` (whole years between
  the birth date and today), and otherwise stores a new record under a fresh id.
- **updateUser** overwrites all six fields of an existing record, nulls
  included, with no email or age check.
- **updateUserFields** overwrites only the fields the request supplies
  (non-null), keeping the others.
- **removeUser** deletes an existing record.
- **findUsersByBirthDateRange** rejects a start date after the end date and
  otherwise returns the view of every user born in the inclusive window.

Failures are values, not exceptions: `EmailAlreadyExists`, `UserLowAge`,
`UserNotFound` and `InvalidDateRange`, each with the message the service
builds. A second, pure piece maps those failures, and lists of field
validation errors, to HTTP statuses and bodies.

Files and modules:

- `dates.dfy` (`Dates`): dates ordered by (year, month, day); the whole-year
  age as the Java time library computes `Period.between(birth, today).getYears()`
  (month difference, day adjustment, division by 12 rounding toward zero),
  with a proof that it equals "difference of years, minus one while the
  birthday is still ahead" for a birth date not after today.
- `decimal.dfy` (`Decimal`): decimal numerals for the id and the minimum age in messages.
- `service_errors.dfy` (`ServiceErrors`): the error kinds, their messages, and the result types.
- `user_model.dfy` (`UserModel`): the stored record, the request bodies, the
  response view (id, email, names, birth date; address and phone dropped), the
  record built by create, and the merge of a partial update.
- `user_store.dfy` (`UserStore`): the table queries the service relies on:
  `existsByEmail`, and `findByBirthDateBetween` in the table's row order.
- `user_service.dfy` (`UserServiceImpl`): the class `UserService` holding the
  table, the next-id counter and `minAge`; one method per operation, each
  stating the result and the whole new table for every branch. A client
  scenario (`UserServiceScenario`) replays the unit tests' cases from the
  contracts alone.
- `exception_handler.dfy` (`GlobalExceptionHandler`): the status and body per error kind and the validation-error body.

Modelling decisions:

- "Today" is a parameter of `CreateUser`; `minAge` is a constructor argument.
- Ids are handed out from 1 upward and never reused, so the
  table's natural row order is ascending id; the range search returns rows in
  that order. The repository query itself names no order; the model fixes
  this one.
- Email, first name, last name and birth date of a create or full-update
  request are non-null (the create path needs the birth date to compute the
  age); address and phone number may be null, and a full update writes a null
  one over the stored value. Every field of a partial update may be null,
  meaning "keep".
- The range check follows the code, which rejects only a start strictly after
  the end; equal dates are accepted, although the message says "Start date
  must be before end date".

## Model

| member | source | states |
|---|---|---|
| Dates.PeriodYearsIsWholeYears | src/main/java/com/evheniy/testassignment/service/UserServiceImpl.java:41 | for valid dates with birth not after today, the Period years equal the year difference minus one while the birthday (month, day) is still ahead |
| Dates.PeriodYearsOfFutureDate | src/main/java/com/evheniy/testassignment/service/UserServiceImpl.java:41 | a birth date after today gives an age of zero or less |
| Dates.AnniversaryAge | src/main/java/com/evheniy/testassignment/service/UserServiceImpl.java:41 | on the same month and day n years later the age is exactly n |
| Dates.SingleDayRange | src/main/java/com/evheniy/testassignment/repository/UserRepository.java:12 | a window whose start equals its end contains exactly that date |
| Dates.BeforeIsTotal | src/main/java/com/evheniy/testassignment/service/UserServiceImpl.java:108 | the date order used by isAfter is total and asymmetric |
| Dates.TruncDiv | src/main/java/com/evheniy/testassignment/service/UserServiceImpl.java:41 | the quotient rounds toward zero as Java's long division does: the remainder has the dividend's sign and is smaller than the divisor |
| Dates.IsAfter | src/main/java/com/evheniy/testassignment/service/UserServiceImpl.java:108 | start is after end exactly when it is neither the same date nor earlier |
| Dates.PeriodYears | src/main/java/com/evheniy/testassignment/service/UserServiceImpl.java:41 | the years of Period.between(birth, today): never negative for a birth date not after today, never positive for a future one (the calendar formula is PeriodYearsIsWholeYears) |
| Decimal.NatToString | src/main/java/com/evheniy/testassignment/service/UserServiceImpl.java:54 | a non-negative id is written as a non-empty string of digits without a leading zero |
| Decimal.IntToString | src/main/java/com/evheniy/testassignment/service/UserServiceImpl.java:42 | the minimum age is written with a leading minus exactly when it is negative, followed by digits that read back as its magnitude |
| Decimal.ParseNatToString | src/main/java/com/evheniy/testassignment/service/UserServiceImpl.java:54 | reading back the written id gives the id |
| Decimal.NatToStringInjective | src/main/java/com/evheniy/testassignment/service/UserServiceImpl.java:101 | distinct non-negative ids are written differently |
| Decimal.ParseIntToString | src/main/java/com/evheniy/testassignment/service/UserServiceImpl.java:42 | reading back the written number, sign included, gives the number |
| Decimal.IntToStringInjective | src/main/java/com/evheniy/testassignment/service/UserServiceImpl.java:54 | distinct numbers, negative ones included, are written differently |
| ServiceErrors.Message | src/main/java/com/evheniy/testassignment/service/UserServiceImpl.java:39-54 | the email message ends with the email; the low-age message carries minAge; the not-found message carries the id |
| ServiceErrors.NotFoundMessageNamesId | src/main/java/com/evheniy/testassignment/service/UserServiceImpl.java:54 | two not-found messages are equal only for the same id, negative ids included |
| ServiceErrors.LowAgeMessageNamesMinAge | src/main/java/com/evheniy/testassignment/service/UserServiceImpl.java:42 | two low-age messages are equal only for the same minimum age |
| ServiceErrors.EmailMessageNamesEmail | src/main/java/com/evheniy/testassignment/service/UserServiceImpl.java:39 | two duplicate-email messages are equal only for the same email |
| UserModel.BuildUser | src/main/java/com/evheniy/testassignment/service/UserServiceImpl.java:66-77 | the new record carries all six request fields, nulls included |
| UserModel.Project | src/main/java/com/evheniy/testassignment/dto/UserResponseDto.java:6-13 | the view carries the id, email, names and birth date of the record |
| UserModel.Merge | src/main/java/com/evheniy/testassignment/service/UserServiceImpl.java:85-90 | each field takes the supplied value exactly when it is non-null, and keeps the stored value otherwise |
| UserModel.MergeEmptyPatch | src/main/java/com/evheniy/testassignment/service/UserServiceImpl.java:85-90 | an all-null partial update leaves the record unchanged |
| UserModel.MergeIdempotent | src/main/java/com/evheniy/testassignment/service/UserServiceImpl.java:85-90 | applying a partial update twice equals applying it once |
| UserModel.MergeFirstNameOnly | src/main/java/com/evheniy/testassignment/service/UserServiceImpl.java:85-90 | a firstName-only update changes firstName and no other field |
| UserModel.MergeNeverClears | src/main/java/com/evheniy/testassignment/service/UserServiceImpl.java:89-90 | a partial update cannot turn a stored address or phone number into null |
| UserModel.MergeFullPatchIsRebuild | src/main/java/com/evheniy/testassignment/service/UserServiceImpl.java:56-61 | supplying every field non-null, the partial update equals the full update; with a null address over a stored one they differ |
| UserStore.EmailTaken | src/main/java/com/evheniy/testassignment/service/UserServiceImpl.java:38 | existsByEmail holds exactly when the email is among the stored users' emails |
| UserStore.IdsBelow | src/main/java/com/evheniy/testassignment/repository/UserRepository.java:12 | the stored ids in [0, bound), each exactly once, in ascending order |
| UserStore.FilterByBirthDate | src/main/java/com/evheniy/testassignment/repository/UserRepository.java:12 | an id is kept iff it is among the input ids and its birth date is in the inclusive window; the result is a subsequence of the input, so input order is kept |
| UserStore.SubsequenceOfIncreasing | src/main/java/com/evheniy/testassignment/repository/UserRepository.java:12 | a subsequence of ascending ids is ascending and draws its ids from the input |
| UserStore.FindByBirthDateBetween | src/main/java/com/evheniy/testassignment/repository/UserRepository.java:12 | exactly the stored users born within the inclusive window, in ascending id order |
| UserStore.ViewsOf | src/main/java/com/evheniy/testassignment/service/UserServiceImpl.java:112-114 | one view per row, same length, same order |
| UserStore.InsertKeepsEmailsUnique | src/main/java/com/evheniy/testassignment/service/UserServiceImpl.java:38-47 | storing a record whose email is not taken keeps emails unique |
| UserStore.OverwriteCanDuplicateEmail | src/main/java/com/evheniy/testassignment/service/UserServiceImpl.java:52-64 | the full update, having no email check, can store two users with the same email |
| UserStore.RemoveKeepsEmailsUnique | src/main/java/com/evheniy/testassignment/service/UserServiceImpl.java:99-104 | deleting a record keeps emails unique |
| UserServiceImpl.OldEnough | src/main/java/com/evheniy/testassignment/service/UserServiceImpl.java:41 | the age test of createUser; for valid dates and positive minAge, a birth date after today never passes |
| UserServiceImpl.OldEnoughIffBirthdayReached | src/main/java/com/evheniy/testassignment/service/UserServiceImpl.java:41-43 | for valid dates and positive minAge, creation passes the age rule iff the birth date is not after today and the minAge-th birthday has come |
| UserServiceImpl.ExactlyMinAgeIsAccepted | src/main/java/com/evheniy/testassignment/service/UserServiceImpl.java:41-43 | on the minAge-th birthday the age rule passes (the bound is inclusive) |
| UserServiceImpl.BeforeMinAgeBirthdayIsRejected | src/main/java/com/evheniy/testassignment/service/UserServiceImpl.java:41-43 | for valid dates and positive minAge, on every day before the minAge-th birthday the age rule fails |
| UserServiceImpl.BornIn2022IsTooYoung | src/test/java/com/evheniy/testassignment/UserServiceImplTests.java:101-113 | a user born on 2022-05-12 fails the 18-year rule on every day up to the end of 2039 |
| UserServiceImpl.UserService.constructor | src/main/java/com/evheniy/testassignment/service/UserServiceImpl.java:28-32 | the service starts with an empty table, next id 1 and the configured minAge |
| UserServiceImpl.UserService.Insert | src/main/java/com/evheniy/testassignment/service/UserServiceImpl.java:44-47 | saving a new record stores it under a fresh id and advances the counter; nothing else changes |
| UserServiceImpl.UserService.CreateUser | src/main/java/com/evheniy/testassignment/service/UserServiceImpl.java:35-48 | a taken email fails with EmailAlreadyExists whatever the age; otherwise age below minAge fails with UserLowAge; both leave the table unchanged; otherwise exactly one record with the six input fields is added under a fresh id and its view, echoing the input, is returned |
| UserServiceImpl.UserService.UpdateUser | src/main/java/com/evheniy/testassignment/service/UserServiceImpl.java:50-64 | an id that is not stored (negative ones included) fails with UserNotFound and no change; a present id gets all six fields from the request under the same id, other records untouched, no email or age check |
| UserServiceImpl.UserService.UpdateUserFields | src/main/java/com/evheniy/testassignment/service/UserServiceImpl.java:79-95 | an id that is not stored (negative ones included) fails with UserNotFound and no change; a present id gets the merge of its record with the patch, other records untouched |
| UserServiceImpl.UserService.RemoveUser | src/main/java/com/evheniy/testassignment/service/UserServiceImpl.java:97-104 | an id that is not stored (negative ones included) fails with UserNotFound and no change; a present id is deleted and every other record kept |
| UserServiceImpl.UserService.FindUsersByBirthDateRange | src/main/java/com/evheniy/testassignment/service/UserServiceImpl.java:106-115 | fails with InvalidDateRange iff start is after end; otherwise returns exactly the views of the stored users born within the inclusive window, one per user, in ascending id order, and changes nothing |
| GlobalExceptionHandler.HandleServiceError | src/main/java/com/evheniy/testassignment/exception/GlobalExceptionHandler.java:31-53 | status 409 exactly for EmailAlreadyExists and 400 for the other three kinds; the body is the error's message |
| GlobalExceptionHandler.ServiceErrorsAreClientErrors | src/main/java/com/evheniy/testassignment/exception/GlobalExceptionHandler.java:31-53 | every business-rule failure gets a 4xx status |
| GlobalExceptionHandler.FormatFieldError | src/main/java/com/evheniy/testassignment/exception/GlobalExceptionHandler.java:25 | the line starts with the field name and ends with the message, separated by ": " |
| GlobalExceptionHandler.FormatFieldErrors | src/main/java/com/evheniy/testassignment/exception/GlobalExceptionHandler.java:22-26 | one line per field error, same length and same order |
| GlobalExceptionHandler.HandleValidationErrors | src/main/java/com/evheniy/testassignment/exception/GlobalExceptionHandler.java:19-29 | status 400 and a body of "field: message" lines, one per error in input order |
| GlobalExceptionHandler.FormatFieldErrorsAppend | src/main/java/com/evheniy/testassignment/exception/GlobalExceptionHandler.java:22-26 | formatting a concatenation of error lists is the concatenation of their formattings |

## Left out

- The HTTP controller (routing, 201/200 wrapping, the literal deletion message): no decisions are made there.
- Request validation annotations (email format, past birth date, required fields, ISO date parsing): these run before the service, so inputs reach the model already validated. `UserRequestDto` is not part of this model; its email, names and birth date are taken to be non-null.
- The object mapper: replaced by the explicit projection `UserModel.Project`. The view keeps the birth date as a date value; its conversion to a string is not modelled.
- The JPA repository implementation: the store is a map plus a next-id counter. Store failures are not modelled.
- Transactions and the check-then-write email race: these concern concurrency, and the model is sequential.
- `LocalDate.now()` becomes the `today` parameter. Logging is left out.
- Java `Long` ids and `int` minimum age are unbounded integers here: overflow of the id counter is not modelled. Request ids may be any integer; stored ids are positive.
- `GlobalExceptionHandler.FormatFieldError`: a null default message (written "null" by Java) is not modelled; messages are strings.
- The test classes are not modelled; the scenario module replays some of their cases.
- Month lengths: a valid date here has month 1..12 and day 1..31, so 31 February is admitted. Ages depend only on the order of the days, so they are unaffected. For a birth on 29 February, though, `Dates.AnniversaryAge` and `UserServiceImpl.ExactlyMinAgeIsAccepted` also speak of 29 February in non-leap years, a date the Java date type cannot hold.
