/**
 Calendar dates as the service compares them: ordered lexicographically by
 (year, month, day), and the whole-year distance that the age rule of
 `createUser` computes with `Period.between(birthDate, today).getYears()`.
 */
module Dates {

  datatype Date = Date(year: int, month: int, day: int)

  /** Month 1..12 and day 1..31; the lengths of the months are not checked. */
  predicate ValidDate(d: Date)
  {
    1 <= d.month <= 12 && 1 <= d.day <= 31
  }

  /** Strict chronological order: year first, then month, then day. */
  predicate Before(a: Date, b: Date)
  {
    a.year < b.year
    || (a.year == b.year && a.month < b.month)
    || (a.year == b.year && a.month == b.month && a.day < b.day)
  }

  /** `a.isAfter(b)`: neither the same date nor earlier. */
  predicate IsAfter(a: Date, b: Date): (r: bool)
    ensures r <==> !(a == b || Before(a, b))
  {
    Before(b, a)
  }

  /** `a` is not after `b`. */
  predicate NotAfter(a: Date, b: Date)
  {
    !Before(b, a)
  }

  /** The inclusive window `start <= d <= end` of a birth-date range search. */
  predicate InRange(d: Date, start: Date, end: Date)
  {
    NotAfter(start, d) && NotAfter(d, end)
  }

  lemma BeforeIsTotal(a: Date, b: Date)
    ensures Before(a, b) || a == b || Before(b, a)
    ensures !(Before(a, b) && Before(b, a))
  {
  }

  /** A window whose two ends coincide holds exactly that one date. */
  lemma SingleDayRange(d: Date, day: Date)
    ensures InRange(d, day, day) <==> d == day
  {
  }

  /**
   Integer division rounding toward zero, as Java's `/` on `long`: the
   remainder takes the sign of the dividend and is smaller than the divisor.
   */
  function TruncDiv(a: int, b: int): (q: int)
    requires b > 0
    ensures a >= 0 ==> 0 <= a - q * b < b
    ensures a < 0 ==> -b < a - q * b <= 0
  {
    if a >= 0 then a / b else -((-a) / b)
  }

  /** Months counted from year 0, as `getProlepticMonth()`. */
  function ProlepticMonth(d: Date): (m: int)
  {
    d.year * 12 + d.month - 1
  }

  /**
   The years component of the period from `from` to `to`: the month difference,
   one month less when the day of month has not been reached (one more on a
   negative period that has passed it), divided by twelve rounding toward zero.
   */
  function PeriodYears(from: Date, to: Date): (years: int)
    ensures ValidDate(from) && ValidDate(to) && NotAfter(from, to) ==> years >= 0
    ensures ValidDate(from) && ValidDate(to) && Before(to, from) ==> years <= 0
  {
    var totalMonths := ProlepticMonth(to) - ProlepticMonth(from);
    var days := to.day - from.day;
    var adjusted :=
      if totalMonths > 0 && days < 0 then totalMonths - 1
      else if totalMonths < 0 && days > 0 then totalMonths + 1
      else totalMonths;
    TruncDiv(adjusted, 12)
  }

  /** The birthday in year `to.year` has not yet come on `to`. */
  predicate BirthdayPending(from: Date, to: Date)
  {
    to.month < from.month || (to.month == from.month && to.day < from.day)
  }

  /**
   For a birth date not after today, the age is the difference of the years,
   minus one while this year's birthday is still ahead.
   */
  lemma PeriodYearsIsWholeYears(from: Date, to: Date)
    requires ValidDate(from) && ValidDate(to)
    requires NotAfter(from, to)
    ensures PeriodYears(from, to) == to.year - from.year - (if BirthdayPending(from, to) then 1 else 0)
  {
  }

  /** A birth date after today gives an age of zero or less. */
  lemma PeriodYearsOfFutureDate(from: Date, to: Date)
    requires ValidDate(from) && ValidDate(to)
    requires Before(to, from)
    ensures PeriodYears(from, to) <= 0
  {
  }

  /** Turning a year older exactly on the birthday: same month and day. */
  lemma AnniversaryAge(from: Date, years: nat)
    requires ValidDate(from)
    ensures PeriodYears(from, Date(from.year + years, from.month, from.day)) == years
  {
    PeriodYearsIsWholeYears(from, Date(from.year + years, from.month, from.day));
  }
}
